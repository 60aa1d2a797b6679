/** The local array surgery of CPP_Physics/MPI.cpp on one process's Field:
    reordering every per-particle array along a sorted classification index
    (sortParticles), cutting the halos off (deleteHalos), dropping the last
    particles (resizeField), splicing received particles in
    (insertParticles) and recounting the particle types. */
module MpiField {
  import opened Structures
  import opened ParticleIndex

  /** enum insertion: where received particles go. */
  datatype Insertion = Begin | End

  /** n copies of x. */
  function Fill<T>(x: T, n: nat): (s: seq<T>)
    ensures |s| == n && forall i :: 0 <= i < n ==> s[i] == x
  {
    if n == 0 then [] else Fill(x, n - 1) + [x]
  }

  /** std::vector::resize(n): truncates, or pads with value-initialised
      elements (0.0 or 0). */
  function Resize<T>(s: seq<T>, n: nat, zero: T): (r: seq<T>)
    ensures |r| == n
    ensures forall i :: 0 <= i < n ==> r[i] == if i < |s| then s[i] else zero
  {
    if n <= |s| then s[..n] else s + Fill(zero, n - |s|)
  }

  /** The loop `tmp[i] = a[index[i].second]` for i < n, filling a buffer. */
  method Permute<T(0)>(a: seq<T>, index: seq<Entry>, n: nat) returns (tmp: seq<T>)
    requires n <= |index| && forall i :: 0 <= i < n ==> index[i].particle < |a|
    ensures tmp == Gather(a, index, n)
  {
    var buf := new T[n];
    for i := 0 to n
      invariant forall j :: 0 <= j < i ==> buf[j] == a[index[j].particle]
    {
      buf[i] := a[index[i].particle];
    }
    tmp := buf[..];
  }

  /** sortParticles: sorts the index by category, then moves every
      per-particle array along it: the new i-th particle is the old
      index[i].second-th. The index is sorted in place in C++ and is
      returned here. The index must supply an entry for each of the N
      particles (it has exactly N entries unless computeOverlapIndex
      skipped a stray), and its particles must exist. */
  method SortParticles(field: Field, index: seq<Entry>) returns (sorted: seq<Entry>)
    requires field.Consistent()
    requires |index| >= field.Size()
    requires forall i :: 0 <= i < |index| ==> index[i].particle < field.Size()
    modifies field
    ensures SortedByKey(sorted) && multiset(sorted) == multiset(index) && |sorted| == |index|
    ensures forall i :: 0 <= i < |sorted| ==> sorted[i].particle < old(field.Size())
    ensures field.Consistent() && field.Size() == old(field.Size())
    ensures forall c :: 0 <= c < 3 ==>
              field.pos[c] == Gather(old(field.pos[c]), sorted, old(field.Size()))
              && field.speed[c] == Gather(old(field.speed[c]), sorted, old(field.Size()))
    ensures field.density == Gather(old(field.density), sorted, old(field.Size()))
    ensures field.pressure == Gather(old(field.pressure), sorted, old(field.Size()))
    ensures field.mass == Gather(old(field.mass), sorted, old(field.Size()))
    ensures field.partType == Gather(old(field.partType), sorted, old(field.Size()))
    ensures field.ScalarsUnchanged()
  {
    sorted := SortByKey(index);
    var n := |field.pos[0]|;
    SortKeepsParticles(index, sorted, n);
    PermuteCoordinates(field, sorted, n);
    PermuteOthers(field, sorted, n);
  }

  /** The density, pressure, mass and type reorderings of sortParticles. */
  method PermuteOthers(field: Field, sorted: seq<Entry>, n: nat)
    requires field.Consistent() && n == field.Size()
    requires |sorted| >= n && forall i :: 0 <= i < |sorted| ==> sorted[i].particle < n
    modifies field
    ensures field.Consistent() && field.Size() == n
    ensures field.pos == old(field.pos) && field.speed == old(field.speed)
    ensures field.density == Gather(old(field.density), sorted, n)
    ensures field.pressure == Gather(old(field.pressure), sorted, n)
    ensures field.mass == Gather(old(field.mass), sorted, n)
    ensures field.partType == Gather(old(field.partType), sorted, n)
    ensures field.ScalarsUnchanged()
  {
    field.density := Permute(field.density, sorted, n);
    field.pressure := Permute(field.pressure, sorted, n);
    field.mass := Permute(field.mass, sorted, n);
    field.partType := Permute(field.partType, sorted, n);
  }

  /** The coordinate loop of sortParticles: pos[coord] and speed[coord]
      are reordered for coord = 0, 1, 2. */
  method PermuteCoordinates(field: Field, sorted: seq<Entry>, n: nat)
    requires field.Consistent() && n == field.Size()
    requires |sorted| >= n && forall i :: 0 <= i < |sorted| ==> sorted[i].particle < n
    modifies field
    ensures field.Consistent() && field.Size() == n
    ensures forall c :: 0 <= c < 3 ==>
              field.pos[c] == Gather(old(field.pos[c]), sorted, n)
              && field.speed[c] == Gather(old(field.speed[c]), sorted, n)
    ensures field.density == old(field.density) && field.pressure == old(field.pressure)
    ensures field.mass == old(field.mass) && field.partType == old(field.partType)
    ensures field.ScalarsUnchanged()
  {
    ghost var pos0, speed0 := field.pos, field.speed;
    for coord := 0 to 3
      invariant |field.pos| == 3 && |field.speed| == 3
      invariant field.density == old(field.density) && field.pressure == old(field.pressure)
      invariant field.mass == old(field.mass) && field.partType == old(field.partType)
      invariant field.ScalarsUnchanged()
      invariant forall c :: 0 <= c < coord ==>
                  field.pos[c] == Gather(pos0[c], sorted, n) && field.speed[c] == Gather(speed0[c], sorted, n)
      invariant forall c :: coord <= c < 3 ==> field.pos[c] == pos0[c] && field.speed[c] == speed0[c]
    {
      var tmp := Permute(field.pos[coord], sorted, n);
      field.pos := field.pos[coord := tmp];
      tmp := Permute(field.speed[coord], sorted, n);
      field.speed := field.speed[coord := tmp];
    }
  }

  /** A permutation of an index has its length and refers to the same
      particles. */
  lemma SortKeepsParticles(index: seq<Entry>, sorted: seq<Entry>, n: nat)
    requires multiset(sorted) == multiset(index)
    requires forall i :: 0 <= i < |index| ==> index[i].particle < n
    ensures |sorted| == |index|
    ensures forall i :: 0 <= i < |sorted| ==> sorted[i].particle < n
  {
    assert |sorted| == |multiset(sorted)| == |multiset(index)| == |index|;
    forall i | 0 <= i < |sorted| ensures sorted[i].particle < n {
      assert sorted[i] in multiset(index);
    }
  }

  /** Sorting a complete index (each particle once) permutes every array:
      no particle is lost or duplicated by sortParticles. */
  lemma SortPermutes<T>(a: seq<T>, index: seq<Entry>, sorted: seq<Entry>)
    requires |index| == |a| && CoversOnce(index, |a|)
    requires multiset(sorted) == multiset(index)
    ensures |sorted| == |a| && forall i :: 0 <= i < |a| ==> sorted[i].particle < |a|
    ensures multiset(Gather(a, sorted, |a|)) == multiset(a)
  {
    assert |sorted| == |multiset(sorted)| == |multiset(index)| == |index|;
    SortKeepsCover(index, sorted, |a|);
    GatherIsPermutation(a, sorted);
  }

  /** After sortParticles on a three-category index, each category occupies
      one block of the arrays: category 0 first, then 1, and category 2 in
      the last CountKey(index, 2) places, which is where shareOverlap and
      shareMigrate start sending to the right. Particle i of the reordered
      field is original particle sorted[i].particle, which has the category
      of its block. */
  lemma SortedBlocks(index: seq<Entry>, sorted: seq<Entry>)
    requires SortedByKey(sorted) && multiset(sorted) == multiset(index)
    requires forall i :: 0 <= i < |index| ==> 0 <= index[i].key < 3
    ensures |sorted| == |index|
    ensures CountKey(index, 0) + CountKey(index, 1) + CountKey(index, 2) == |index|
    ensures forall i :: 0 <= i < |sorted| ==> (sorted[i].key == 0 <==> i < CountKey(index, 0))
    ensures forall i :: 0 <= i < |sorted| ==>
              (sorted[i].key == 1 <==> CountKey(index, 0) <= i < CountKey(index, 0) + CountKey(index, 1))
    ensures forall i :: 0 <= i < |sorted| ==> (sorted[i].key == 2 <==> |sorted| - CountKey(index, 2) <= i)
  {
    assert |sorted| == |multiset(sorted)| == |multiset(index)| == |index|;
    forall i | 0 <= i < |sorted| ensures 0 <= sorted[i].key < 3 {
      assert sorted[i] in multiset(index);
    }
    CountPermutation(index, sorted, 0);
    CountPermutation(index, sorted, 1);
    CountPermutation(index, sorted, 2);
    ThreeBlocks(sorted);
  }

  /** The cut deleteHalos makes to one array: resize to end + 1, then erase
      the first start entries. */
  function Cut<T>(s: seq<T>, start: int, end: int, zero: T): (r: seq<T>)
    requires 0 <= start <= end + 1
    ensures |r| == end + 1 - start
    ensures end < |s| ==> r == s[start..end + 1]
  {
    Resize(s, end + 1, zero)[start..]
  }

  /** deleteHalos: every array keeps only the owned particles
      startingParticle .. endingParticle. The erase needs
      start <= end + 1. */
  method DeleteHalos(field: Field, info: SubdomainInfo)
    requires field.Shaped()
    requires 0 <= info.startingParticle <= info.endingParticle + 1
    modifies field
    ensures field.Consistent() && field.ScalarsUnchanged()
    ensures field.Size() == info.endingParticle + 1 - info.startingParticle
    ensures forall c :: 0 <= c < 3 ==>
              field.pos[c] == Cut(old(field.pos[c]), info.startingParticle, info.endingParticle, 0.0)
              && field.speed[c] == Cut(old(field.speed[c]), info.startingParticle, info.endingParticle, 0.0)
    ensures field.density == Cut(old(field.density), info.startingParticle, info.endingParticle, 0.0)
    ensures field.pressure == Cut(old(field.pressure), info.startingParticle, info.endingParticle, 0.0)
    ensures field.mass == Cut(old(field.mass), info.startingParticle, info.endingParticle, 0.0)
    ensures field.partType == Cut(old(field.partType), info.startingParticle, info.endingParticle, 0)
  {
    var start := info.startingParticle;
    var end := info.endingParticle;
    CutCoordinates(field, start, end);
    field.density := Resize(field.density, end + 1, 0.0)[start..];
    field.pressure := Resize(field.pressure, end + 1, 0.0)[start..];
    field.mass := Resize(field.mass, end + 1, 0.0)[start..];
    field.partType := Resize(field.partType, end + 1, 0)[start..];
  }

  /** The coordinate loop of deleteHalos. */
  method CutCoordinates(field: Field, start: int, end: int)
    requires field.Shaped() && 0 <= start <= end + 1
    modifies field
    ensures field.Shaped() && field.ScalarsUnchanged()
    ensures forall c :: 0 <= c < 3 ==>
              field.pos[c] == Cut(old(field.pos[c]), start, end, 0.0)
              && field.speed[c] == Cut(old(field.speed[c]), start, end, 0.0)
    ensures field.density == old(field.density) && field.pressure == old(field.pressure)
    ensures field.mass == old(field.mass) && field.partType == old(field.partType)
  {
    ghost var pos0, speed0 := field.pos, field.speed;
    for i := 0 to 3
      invariant |field.pos| == 3 && |field.speed| == 3 && field.ScalarsUnchanged()
      invariant field.density == old(field.density) && field.pressure == old(field.pressure)
      invariant field.mass == old(field.mass) && field.partType == old(field.partType)
      invariant forall c :: 0 <= c < i ==>
                  field.pos[c] == Cut(pos0[c], start, end, 0.0) && field.speed[c] == Cut(speed0[c], start, end, 0.0)
      invariant forall c :: i <= c < 3 ==> field.pos[c] == pos0[c] && field.speed[c] == speed0[c]
    {
      field.pos := field.pos[i := Resize(field.pos[i], end + 1, 0.0)[start..]];
      field.speed := field.speed[i := Resize(field.speed[i], end + 1, 0.0)[start..]];
    }
  }

  /** resizeField: every array is cut (or padded) to pos[0].size() - n.
      The new size must not be negative. */
  method ResizeField(field: Field, n: int)
    requires field.Shaped() && 0 <= n <= field.Size()
    modifies field
    ensures field.Consistent() && field.ScalarsUnchanged()
    ensures field.Size() == old(field.Size()) - n
    ensures forall c :: 0 <= c < 3 ==>
              field.pos[c] == Resize(old(field.pos[c]), old(field.Size()) - n, 0.0)
              && field.speed[c] == Resize(old(field.speed[c]), old(field.Size()) - n, 0.0)
    ensures field.density == Resize(old(field.density), old(field.Size()) - n, 0.0)
    ensures field.pressure == Resize(old(field.pressure), old(field.Size()) - n, 0.0)
    ensures field.mass == Resize(old(field.mass), old(field.Size()) - n, 0.0)
    ensures field.partType == Resize(old(field.partType), old(field.Size()) - n, 0)
  {
    var finalSize := |field.pos[0]| - n;
    ResizeCoordinates(field, finalSize);
    field.density := Resize(field.density, finalSize, 0.0);
    field.pressure := Resize(field.pressure, finalSize, 0.0);
    field.mass := Resize(field.mass, finalSize, 0.0);
    field.partType := Resize(field.partType, finalSize, 0);
  }

  /** The coordinate loop of resizeField. */
  method ResizeCoordinates(field: Field, finalSize: nat)
    requires field.Shaped()
    modifies field
    ensures field.Shaped() && field.ScalarsUnchanged()
    ensures forall c :: 0 <= c < 3 ==>
              field.pos[c] == Resize(old(field.pos[c]), finalSize, 0.0)
              && field.speed[c] == Resize(old(field.speed[c]), finalSize, 0.0)
    ensures field.density == old(field.density) && field.pressure == old(field.pressure)
    ensures field.mass == old(field.mass) && field.partType == old(field.partType)
  {
    ghost var pos0, speed0 := field.pos, field.speed;
    for coord := 0 to 3
      invariant |field.pos| == 3 && |field.speed| == 3 && field.ScalarsUnchanged()
      invariant field.density == old(field.density) && field.pressure == old(field.pressure)
      invariant field.mass == old(field.mass) && field.partType == old(field.partType)
      invariant forall c :: 0 <= c < coord ==>
                  field.pos[c] == Resize(pos0[c], finalSize, 0.0) && field.speed[c] == Resize(speed0[c], finalSize, 0.0)
      invariant forall c :: coord <= c < 3 ==> field.pos[c] == pos0[c] && field.speed[c] == speed0[c]
    {
      field.pos := field.pos[coord := Resize(field.pos[coord], finalSize, 0.0)];
      field.speed := field.speed[coord := Resize(field.speed[coord], finalSize, 0.0)];
    }
  }

  /** On arrays of one common length, resizeField(n) keeps the first
      size - n entries. */
  lemma ResizeIsPrefix<T>(s: seq<T>, m: nat, zero: T)
    requires m <= |s|
    ensures Resize(s, m, zero) == s[..m]
  {
  }

  /** Where received values go: after (End) or before (Begin) the old ones. */
  function Spliced<T>(old_: seq<T>, received: seq<T>, place: Insertion): (r: seq<T>)
    ensures |r| == |old_| + |received|
    ensures place == End ==> r[..|old_|] == old_ && r[|old_|..] == received
    ensures place == Begin ==> r[..|received|] == received && r[|received|..] == old_
  {
    match place
    case End => old_ + received
    case Begin => received + old_
  }

  /** Nine receive buffers of equal length n and a type buffer of length
      n, laid out 0 x, 1 u, 2 y, 3 v, 4 z, 5 w, 6 density, 7 pressure,
      8 mass. */
  predicate BufferShaped(recvBuffer: seq<seq<real>>, recvType: seq<int>)
  {
    |recvBuffer| == 9 && forall k :: 0 <= k < 9 ==> |recvBuffer[k]| == |recvType|
  }

  /** insertParticles: buffer 2i goes to pos[i], 2i + 1 to speed[i], 6 to
      density, 7 to pressure, 8 to mass, and the type buffer to type, all
      at the chosen end. */
  method InsertParticles(field: Field, recvBuffer: seq<seq<real>>, recvType: seq<int>, place: Insertion)
    requires field.Shaped() && |recvBuffer| == 9
    modifies field
    ensures field.Shaped() && field.ScalarsUnchanged()
    ensures forall c :: 0 <= c < 3 ==>
              field.pos[c] == Spliced(old(field.pos[c]), recvBuffer[2 * c], place)
              && field.speed[c] == Spliced(old(field.speed[c]), recvBuffer[2 * c + 1], place)
    ensures field.density == Spliced(old(field.density), recvBuffer[6], place)
    ensures field.pressure == Spliced(old(field.pressure), recvBuffer[7], place)
    ensures field.mass == Spliced(old(field.mass), recvBuffer[8], place)
    ensures field.partType == Spliced(old(field.partType), recvType, place)
    ensures old(field.Consistent()) && BufferShaped(recvBuffer, recvType) ==>
              field.Consistent() && field.Size() == old(field.Size()) + |recvType|
  {
    InsertCoordinates(field, recvBuffer, place);
    match place
    case End =>
      field.density := field.density + recvBuffer[6];
      field.pressure := field.pressure + recvBuffer[7];
      field.mass := field.mass + recvBuffer[8];
      field.partType := field.partType + recvType;
    case Begin =>
      field.density := recvBuffer[6] + field.density;
      field.pressure := recvBuffer[7] + field.pressure;
      field.mass := recvBuffer[8] + field.mass;
      field.partType := recvType + field.partType;
  }

  /** The coordinate loop of insertParticles: pos[i] and speed[i] for
      i < 3. */
  method InsertCoordinates(field: Field, recvBuffer: seq<seq<real>>, place: Insertion)
    requires field.Shaped() && |recvBuffer| == 9
    modifies field
    ensures field.Shaped() && field.ScalarsUnchanged()
    ensures forall c :: 0 <= c < 3 ==>
              field.pos[c] == Spliced(old(field.pos[c]), recvBuffer[2 * c], place)
              && field.speed[c] == Spliced(old(field.speed[c]), recvBuffer[2 * c + 1], place)
    ensures field.density == old(field.density) && field.pressure == old(field.pressure)
    ensures field.mass == old(field.mass) && field.partType == old(field.partType)
  {
    ghost var pos0, speed0 := field.pos, field.speed;
    for i := 0 to 3
      invariant |field.pos| == 3 && |field.speed| == 3 && field.ScalarsUnchanged()
      invariant field.density == old(field.density) && field.pressure == old(field.pressure)
      invariant field.mass == old(field.mass) && field.partType == old(field.partType)
      invariant forall c :: 0 <= c < i ==>
                  field.pos[c] == Spliced(pos0[c], recvBuffer[2 * c], place)
                  && field.speed[c] == Spliced(speed0[c], recvBuffer[2 * c + 1], place)
      invariant forall c :: i <= c < 3 ==> field.pos[c] == pos0[c] && field.speed[c] == speed0[c]
    {
      match place
      case End =>
        field.pos := field.pos[i := field.pos[i] + recvBuffer[2 * i]];
        field.speed := field.speed[i := field.speed[i] + recvBuffer[2 * i + 1]];
      case Begin =>
        field.pos := field.pos[i := recvBuffer[2 * i] + field.pos[i]];
        field.speed := field.speed[i := recvBuffer[2 * i + 1] + field.speed[i]];
    }
  }

  /** Nine empty buffers: nothing received from a side with no neighbour. */
  function NoBuffers(): (bs: seq<seq<real>>)
    ensures BufferShaped(bs, [])
  {
    seq(9, k => [])
  }

  /** The per-particle arrays of a Field, taken together as one value, in
      the order of the send buffers: x, u, y, v, z, w, density, pressure,
      mass, and the types. */
  datatype Columns = Columns(x: seq<real>, u: seq<real>, y: seq<real>, v: seq<real>, z: seq<real>, w: seq<real>,
                             density: seq<real>, pressure: seq<real>, mass: seq<real>, partType: seq<int>)

  function ColumnsOf(field: Field): (cs: Columns)
    requires |field.pos| == 3 && |field.speed| == 3
    reads field
    ensures field.Consistent() ==> Sized(cs, field.Size())
  {
    Columns(field.pos[0], field.speed[0], field.pos[1], field.speed[1], field.pos[2], field.speed[2],
            field.density, field.pressure, field.mass, field.partType)
  }

  /** Every array has n entries. */
  predicate Sized(cs: Columns, n: int)
  {
    |cs.x| == n && |cs.u| == n && |cs.y| == n && |cs.v| == n && |cs.z| == n && |cs.w| == n
    && |cs.density| == n && |cs.pressure| == n && |cs.mass| == n && |cs.partType| == n
  }

  /** Every array has at least n entries. */
  predicate AtLeast(cs: Columns, n: int)
  {
    |cs.x| >= n && |cs.u| >= n && |cs.y| >= n && |cs.v| >= n && |cs.z| >= n && |cs.w| >= n
    && |cs.density| >= n && |cs.pressure| >= n && |cs.mass| >= n && |cs.partType| >= n
  }

  /** Entries i .. j - 1 of every array. */
  function Slice(cs: Columns, i: int, j: int): (r: Columns)
    requires 0 <= i <= j && AtLeast(cs, j)
    ensures Sized(r, j - i)
  {
    Columns(cs.x[i..j], cs.u[i..j], cs.y[i..j], cs.v[i..j], cs.z[i..j], cs.w[i..j],
            cs.density[i..j], cs.pressure[i..j], cs.mass[i..j], cs.partType[i..j])
  }

  /** Every array of cs followed by the matching buffer of B (and TB). */
  function Appended(cs: Columns, B: seq<seq<real>>, TB: seq<int>): (r: Columns)
    requires |B| == 9
    ensures BufferShaped(B, TB) && Sized(cs, |cs.x|) ==> Sized(r, |cs.x| + |TB|)
  {
    Columns(cs.x + B[0], cs.u + B[1], cs.y + B[2], cs.v + B[3], cs.z + B[4], cs.w + B[5],
            cs.density + B[6], cs.pressure + B[7], cs.mass + B[8], cs.partType + TB)
  }

  /** Every array of cs with the matching buffer of L (and TL) in front and
      of R (and TR) behind. */
  function Surround(L: seq<seq<real>>, TL: seq<int>, cs: Columns, R: seq<seq<real>>, TR: seq<int>): Columns
    requires |L| == 9 && |R| == 9
  {
    Columns(L[0] + cs.x + R[0], L[1] + cs.u + R[1], L[2] + cs.y + R[2], L[3] + cs.v + R[3],
            L[4] + cs.z + R[4], L[5] + cs.w + R[5],
            L[6] + cs.density + R[6], L[7] + cs.pressure + R[7], L[8] + cs.mass + R[8],
            TL + cs.partType + TR)
  }

  /** Putting L in front and then R behind is putting both around. */
  lemma SurroundTwice(L: seq<seq<real>>, TL: seq<int>, cs: Columns, R: seq<seq<real>>, TR: seq<int>)
    requires |L| == 9 && |R| == 9
    ensures Surround(NoBuffers(), [], Surround(L, TL, cs, NoBuffers(), []), R, TR) == Surround(L, TL, cs, R, TR)
  {
    var nb := NoBuffers();
    forall k | 0 <= k < 9 ensures nb[k] == [] { }
    Rewrap(L[0], cs.x, R[0]);
    Rewrap(L[1], cs.u, R[1]);
    Rewrap(L[2], cs.y, R[2]);
    Rewrap(L[3], cs.v, R[3]);
    Rewrap(L[4], cs.z, R[4]);
    Rewrap(L[5], cs.w, R[5]);
    Rewrap(L[6], cs.density, R[6]);
    Rewrap(L[7], cs.pressure, R[7]);
    Rewrap(L[8], cs.mass, R[8]);
    Rewrap(TL, cs.partType, TR);
  }

  lemma Rewrap<T>(l: seq<T>, x: seq<T>, r: seq<T>)
    ensures [] + (l + x + []) + r == l + x + r
  {
    assert l + x + [] == l + x;
  }

  /** Surrounding by nothing changes nothing. */
  lemma SurroundNothing(cs: Columns)
    ensures Surround(NoBuffers(), [], cs, NoBuffers(), []) == cs
  {
    var nb := NoBuffers();
    forall k | 0 <= k < 9 ensures nb[k] == [] { }
    Rewrap([], cs.x, []);
    Rewrap([], cs.u, []);
    Rewrap([], cs.y, []);
    Rewrap([], cs.v, []);
    Rewrap([], cs.z, []);
    Rewrap([], cs.w, []);
    Rewrap([], cs.density, []);
    Rewrap([], cs.pressure, []);
    Rewrap([], cs.mass, []);
    Rewrap([], cs.partType, []);
  }

  /** insertParticles at the front surrounds by the buffers and nothing;
      at the end, by nothing and the buffers. */
  lemma SplicedSurround(a: Columns, b: Columns, buf: seq<seq<real>>, types: seq<int>, place: Insertion)
    requires |buf| == 9
    requires b.x == Spliced(a.x, buf[0], place) && b.u == Spliced(a.u, buf[1], place)
    requires b.y == Spliced(a.y, buf[2], place) && b.v == Spliced(a.v, buf[3], place)
    requires b.z == Spliced(a.z, buf[4], place) && b.w == Spliced(a.w, buf[5], place)
    requires b.density == Spliced(a.density, buf[6], place) && b.pressure == Spliced(a.pressure, buf[7], place)
    requires b.mass == Spliced(a.mass, buf[8], place) && b.partType == Spliced(a.partType, types, place)
    ensures place == Begin ==> b == Surround(buf, types, a, NoBuffers(), [])
    ensures place == End ==> b == Surround(NoBuffers(), [], a, buf, types)
  {
    var nb := NoBuffers();
    forall k | 0 <= k < 9 ensures nb[k] == [] { }
    if place == Begin {
      Rewrap(buf[0], a.x, []);
      Rewrap(buf[1], a.u, []);
      Rewrap(buf[2], a.y, []);
      Rewrap(buf[3], a.v, []);
      Rewrap(buf[4], a.z, []);
      Rewrap(buf[5], a.w, []);
      Rewrap(buf[6], a.density, []);
      Rewrap(buf[7], a.pressure, []);
      Rewrap(buf[8], a.mass, []);
      Rewrap(types, a.partType, []);
    } else {
      Rewrap([], a.x, buf[0]);
      Rewrap([], a.u, buf[1]);
      Rewrap([], a.y, buf[2]);
      Rewrap([], a.v, buf[3]);
      Rewrap([], a.z, buf[4]);
      Rewrap([], a.w, buf[5]);
      Rewrap([], a.density, buf[6]);
      Rewrap([], a.pressure, buf[7]);
      Rewrap([], a.mass, buf[8]);
      Rewrap([], a.partType, types);
    }
  }

  /** The arrays are the old arrays with the buffers L (and types TL) in
      front and R (and TR) behind. */
  twostate predicate Surrounded(field: Field, L: seq<seq<real>>, TL: seq<int>, R: seq<seq<real>>, TR: seq<int>)
    reads field
  {
    |L| == 9 && |R| == 9 && field.ScalarsUnchanged()
    && |field.pos| == 3 && |field.speed| == 3 && |old(field.pos)| == 3 && |old(field.speed)| == 3
    && ColumnsOf(field) == Surround(L, TL, old(ColumnsOf(field)), R, TR)
  }

  /** Receiving buffers that fit: the old entries are found again right
      after the front buffers. */
  lemma SurroundWindow(L: seq<seq<real>>, TL: seq<int>, cs: Columns, R: seq<seq<real>>, TR: seq<int>, n: int)
    requires BufferShaped(L, TL) && BufferShaped(R, TR) && Sized(cs, n)
    ensures Sized(Surround(L, TL, cs, R, TR), |TL| + n + |TR|)
    ensures Slice(Surround(L, TL, cs, R, TR), |TL|, |TL| + n) == cs
  {
    var s, k := Surround(L, TL, cs, R, TR), |TL|;
    assert forall b :: 0 <= b < 9 ==> |L[b]| == k;
    assert |L[0]| == k && |L[1]| == k && |L[2]| == k && |L[3]| == k && |L[4]| == k;
    assert |L[5]| == k && |L[6]| == k && |L[7]| == k && |L[8]| == k;
    assert |R[0]| == |TR| && |R[1]| == |TR| && |R[2]| == |TR| && |R[3]| == |TR| && |R[4]| == |TR|;
    assert |R[5]| == |TR| && |R[6]| == |TR| && |R[7]| == |TR| && |R[8]| == |TR|;
    assert s.x[k..k + n] == cs.x && s.u[k..k + n] == cs.u && s.y[k..k + n] == cs.y;
    assert s.v[k..k + n] == cs.v && s.z[k..k + n] == cs.z && s.w[k..k + n] == cs.w;
    assert s.density[k..k + n] == cs.density && s.pressure[k..k + n] == cs.pressure;
    assert s.mass[k..k + n] == cs.mass && s.partType[k..k + n] == cs.partType;
  }

  /** Surrounding by nothing in front is appending. */
  lemma SurroundRight(cs: Columns, B: seq<seq<real>>, TB: seq<int>)
    requires |B| == 9
    ensures Surround(NoBuffers(), [], cs, B, TB) == Appended(cs, B, TB)
  {
    var nb := NoBuffers();
    forall k | 0 <= k < 9 ensures nb[k] == [] { }
    assert [] + cs.x == cs.x && [] + cs.u == cs.u && [] + cs.y == cs.y && [] + cs.v == cs.v;
    assert [] + cs.z == cs.z && [] + cs.w == cs.w && [] + cs.density == cs.density;
    assert [] + cs.pressure == cs.pressure && [] + cs.mass == cs.mass && [] + cs.partType == cs.partType;
  }

  /** Appending nothing changes nothing. */
  lemma AppendNothing(cs: Columns)
    ensures Appended(cs, NoBuffers(), []) == cs
  {
    var nb := NoBuffers();
    forall k | 0 <= k < 9 ensures nb[k] == [] { }
    assert cs.x + [] == cs.x && cs.u + [] == cs.u && cs.y + [] == cs.y && cs.v + [] == cs.v;
    assert cs.z + [] == cs.z && cs.w + [] == cs.w && cs.density + [] == cs.density;
    assert cs.pressure + [] == cs.pressure && cs.mass + [] == cs.mass && cs.partType + [] == cs.partType;
  }

  /** Arrays resized to m entries or fewer are their first m entries. */
  lemma ResizedSlice(a: Columns, b: Columns, m: int)
    requires 0 <= m && AtLeast(a, m)
    requires b.x == Resize(a.x, m, 0.0) && b.u == Resize(a.u, m, 0.0) && b.y == Resize(a.y, m, 0.0)
    requires b.v == Resize(a.v, m, 0.0) && b.z == Resize(a.z, m, 0.0) && b.w == Resize(a.w, m, 0.0)
    requires b.density == Resize(a.density, m, 0.0) && b.pressure == Resize(a.pressure, m, 0.0)
    requires b.mass == Resize(a.mass, m, 0.0) && b.partType == Resize(a.partType, m, 0)
    ensures b == Slice(a, 0, m)
  {
    ResizeIsPrefix(a.x, m, 0.0);
    ResizeIsPrefix(a.u, m, 0.0);
    ResizeIsPrefix(a.y, m, 0.0);
    ResizeIsPrefix(a.v, m, 0.0);
    ResizeIsPrefix(a.z, m, 0.0);
    ResizeIsPrefix(a.w, m, 0.0);
    ResizeIsPrefix(a.density, m, 0.0);
    ResizeIsPrefix(a.pressure, m, 0.0);
    ResizeIsPrefix(a.mass, m, 0.0);
    ResizeIsPrefix(a.partType, m, 0);
  }

  /** The arrays are the first keep old entries followed by the buffers L
      and then R. */
  twostate predicate KeptThenAppended(field: Field, keep: int, L: seq<seq<real>>, TL: seq<int>,
                                      R: seq<seq<real>>, TR: seq<int>)
    reads field
  {
    |L| == 9 && |R| == 9 && field.ScalarsUnchanged()
    && |field.pos| == 3 && |field.speed| == 3 && |old(field.pos)| == 3 && |old(field.speed)| == 3
    && 0 <= keep && AtLeast(old(ColumnsOf(field)), keep)
    && ColumnsOf(field) == Appended(Appended(Slice(old(ColumnsOf(field)), 0, keep), L, TL), R, TR)
  }

  /** The number of entries of ts equal to t. */
  function TypeCount(ts: seq<int>, t: int): nat
  {
    if ts == [] then 0 else TypeCount(ts[..|ts| - 1], t) + (if ts[|ts| - 1] == t then 1 else 0)
  }

  /** The number of entries of ts that are neither free (0) nor fixed (1):
      the switch's default branch counts them as moving. */
  function OtherCount(ts: seq<int>): nat
  {
    if ts == [] then 0
    else OtherCount(ts[..|ts| - 1]) + (if ts[|ts| - 1] != FREE_PART && ts[|ts| - 1] != FIXED_PART then 1 else 0)
  }

  /** Every particle is counted exactly once: free, fixed or moving. */
  lemma {:induction false} TypeCountsSum(ts: seq<int>)
    ensures TypeCount(ts, FREE_PART) + TypeCount(ts, FIXED_PART) + OtherCount(ts) == |ts|
  {
    if ts != [] {
      TypeCountsSum(ts[..|ts| - 1]);
    }
  }

  /** The recount that ends scatterField and processUpdate: nTotal becomes
      pos[0].size(), then one pass over type counts free, fixed and (all
      other types) moving particles. */
  method Recount(field: Field)
    requires field.Shaped() && |field.partType| >= field.Size()
    modifies field
    ensures field.Shaped() && field.nTotal == field.Size() <= |field.partType|
    ensures field.nFree == TypeCount(field.partType[..field.nTotal], FREE_PART)
    ensures field.nFixed == TypeCount(field.partType[..field.nTotal], FIXED_PART)
    ensures field.nMoving == OtherCount(field.partType[..field.nTotal])
    ensures field.nFree + field.nFixed + field.nMoving == field.nTotal
    ensures field.l == old(field.l) && field.u == old(field.u)
    ensures field.nextK == old(field.nextK) && field.currentTime == old(field.currentTime)
    ensures field.pos == old(field.pos) && field.speed == old(field.speed)
    ensures field.density == old(field.density) && field.pressure == old(field.pressure)
    ensures field.mass == old(field.mass) && field.partType == old(field.partType)
  {
    var n := |field.pos[0]|;
    field.nTotal := n;
    field.nFree := 0;
    field.nFixed := 0;
    field.nMoving := 0;
    var types := field.partType;
    for i := 0 to n
      invariant field.nTotal == n
      invariant field.nFree == TypeCount(types[..i], FREE_PART)
      invariant field.nFixed == TypeCount(types[..i], FIXED_PART)
      invariant field.nMoving == OtherCount(types[..i])
      invariant field.l == old(field.l) && field.u == old(field.u)
      invariant field.nextK == old(field.nextK) && field.currentTime == old(field.currentTime)
      invariant field.pos == old(field.pos) && field.speed == old(field.speed)
      invariant field.density == old(field.density) && field.pressure == old(field.pressure)
      invariant field.mass == old(field.mass) && field.partType == types
    {
      assert types[..i + 1][..i] == types[..i];
      var t := field.partType[i];
      if t == FREE_PART {
        field.nFree := field.nFree + 1;
      } else if t == FIXED_PART {
        field.nFixed := field.nFixed + 1;
      } else {
        field.nMoving := field.nMoving + 1;
      }
    }
    TypeCountsSum(types[..n]);
  }
}
