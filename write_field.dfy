/** The output step of the solver (CPP_Interface/writeField.cpp): the Field
    is copied into a fresh one with the free particles first, the ParaView
    writer is handed one [start, end) range of that copy per output, and the
    Matlab writer a zero-padded, numbered file name. The files themselves
    are not modelled. */
module WriteField {
  import opened Structures
  import opened Text
  import opened MpiField

  // ---------------------------------------------------------------------
  // The free-first reordering, as a specification
  // ---------------------------------------------------------------------

  /** Whether particle i is taken by the pass that collects free (b) or
      non-free (!b) particles. */
  predicate Taken(t: int, b: bool)
  {
    (t == FREE_PART) == b
  }

  /** The indices of the particles taken by one pass, in increasing order:
      every taken index appears, and only those. */
  function Positions(ts: seq<int>, b: bool): (r: seq<nat>)
    ensures forall k :: 0 <= k < |r| ==> r[k] < |ts| && Taken(ts[r[k]], b)
    ensures forall k, k' :: 0 <= k < k' < |r| ==> r[k] < r[k']
    ensures forall j :: 0 <= j < |ts| && Taken(ts[j], b) ==> j in r
  {
    if ts == [] then []
    else
      var front := Positions(ts[..|ts| - 1], b);
      assert forall k :: 0 <= k < |front| ==> front[k] < |ts| - 1;
      front + (if Taken(ts[|ts| - 1], b) then [|ts| - 1] else [])
  }

  /** The values one pass pushes back, in the order it pushes them. */
  function Select<T>(xs: seq<T>, ts: seq<int>, b: bool): seq<T>
    requires |xs| == |ts|
  {
    if xs == [] then []
    else Select(xs[..|xs| - 1], ts[..|ts| - 1], b) + (if Taken(ts[|ts| - 1], b) then [xs[|xs| - 1]] else [])
  }

  /** Both passes: first the free particles, then all others. */
  function FreeFirst<T>(xs: seq<T>, ts: seq<int>): seq<T>
    requires |xs| == |ts|
  {
    Select(xs, ts, true) + Select(xs, ts, false)
  }

  /** A pass keeps the original order: its k-th value is the value of the
      k-th taken particle. */
  lemma {:induction false} SelectIsGather<T>(xs: seq<T>, ts: seq<int>, b: bool)
    requires |xs| == |ts|
    ensures |Select(xs, ts, b)| == |Positions(ts, b)|
    ensures forall k :: 0 <= k < |Positions(ts, b)| ==> Select(xs, ts, b)[k] == xs[Positions(ts, b)[k]]
    decreases |xs|
  {
    if xs != [] {
      var xs', ts' := xs[..|xs| - 1], ts[..|ts| - 1];
      SelectIsGather(xs', ts', b);
      forall k | 0 <= k < |Positions(ts', b)|
        ensures xs'[Positions(ts', b)[k]] == xs[Positions(ts', b)[k]]
      {
      }
    }
  }

  /** The free pass takes TypeCount(ts, FREE_PART) particles and the other
      pass the rest. */
  lemma {:induction false} PositionsCount(ts: seq<int>)
    ensures |Positions(ts, true)| == TypeCount(ts, FREE_PART)
    ensures |Positions(ts, false)| == |ts| - TypeCount(ts, FREE_PART)
    decreases |ts|
  {
    if ts != [] {
      PositionsCount(ts[..|ts| - 1]);
    }
  }

  /** Together the two passes hold every value exactly as often as before. */
  lemma {:induction false} FreeFirstPermutes<T>(xs: seq<T>, ts: seq<int>)
    requires |xs| == |ts|
    ensures |FreeFirst(xs, ts)| == |xs|
    ensures multiset(FreeFirst(xs, ts)) == multiset(xs)
    decreases |xs|
  {
    if xs != [] {
      var xs', ts' := xs[..|xs| - 1], ts[..|ts| - 1];
      FreeFirstPermutes(xs', ts');
      assert xs == xs' + [xs[|xs| - 1]];
    }
  }

  /** In the reordered type sequence, the first TypeCount(ts, FREE_PART)
      entries are exactly the free ones: [0, count) is the free block and
      [count, size) is the moving and fixed block. */
  lemma FreeBlock(ts: seq<int>)
    ensures |FreeFirst(ts, ts)| == |ts|
    ensures forall i :: 0 <= i < |ts| ==>
              (FreeFirst(ts, ts)[i] == FREE_PART <==> i < TypeCount(ts, FREE_PART))
  {
    FreeFirstPermutes(ts, ts);
    SelectIsGather(ts, ts, true);
    SelectIsGather(ts, ts, false);
    PositionsCount(ts);
    var r, m := FreeFirst(ts, ts), TypeCount(ts, FREE_PART);
    forall i | 0 <= i < |ts| ensures r[i] == FREE_PART <==> i < m {
      if i < m {
        assert r[i] == Select(ts, ts, true)[i] == ts[Positions(ts, true)[i]];
      } else {
        assert r[i] == Select(ts, ts, false)[i - m] == ts[Positions(ts, false)[i - m]];
      }
    }
  }

  // ---------------------------------------------------------------------
  // writeField, lines 21-79: the copy
  // ---------------------------------------------------------------------

  /** The guard of the copy and of both writers. */
  predicate WritesOutput(paraview: Paraview, matlab: Matlab)
  {
    paraview != NoParaview || matlab != NoMatlab
  }

  /** One pass of the data loop: a step of a pass appends particle i's value
      exactly when it is taken. */
  lemma SelectStep<T>(xs: seq<T>, ts: seq<int>, b: bool, i: nat)
    requires |xs| == |ts| && i < |xs|
    ensures Select(xs[..i + 1], ts[..i + 1], b)
            == Select(xs[..i], ts[..i], b) + (if Taken(ts[i], b) then [xs[i]] else [])
  {
    assert xs[..i + 1][..i] == xs[..i];
    assert ts[..i + 1][..i] == ts[..i];
  }

  lemma TypeCountStep(ts: seq<int>, i: nat)
    requires i < |ts|
    ensures TypeCount(ts[..i + 1], FREE_PART) == TypeCount(ts[..i], FREE_PART) + (if ts[i] == FREE_PART then 1 else 0)
  {
    assert ts[..i + 1][..i] == ts[..i];
  }

  /** One loop of writeField over the nine per-particle arrays (pos[0..2],
      speed[0..2], density, pressure, mass, in that order): push the values
      of the particles the pass takes, and count them. */
  method CopyPass(cols: seq<seq<real>>, ts: seq<int>, b: bool)
    returns (out: seq<seq<real>>, count: int)
    requires |cols| == 9 && forall k :: 0 <= k < 9 ==> |cols[k]| == |ts|
    ensures |out| == 9 && forall k :: 0 <= k < 9 ==> out[k] == Select(cols[k], ts, b)
    ensures b ==> count == TypeCount(ts, FREE_PART)
  {
    out := seq(9, k => []);
    count := 0;
    for i := 0 to |ts|
      invariant |out| == 9 && forall k :: 0 <= k < 9 ==> out[k] == Select(cols[k][..i], ts[..i], b)
      invariant b ==> count == TypeCount(ts[..i], FREE_PART)
    {
      forall k | 0 <= k < 9 {
        SelectStep(cols[k], ts, b, i);
      }
      TypeCountStep(ts, i);
      if Taken(ts[i], b) {
        out := seq(9, k requires 0 <= k < 9 => out[k] + [cols[k][i]]);
        count := count + 1;
      }
    }
    forall k | 0 <= k < 9 ensures cols[k][..|ts|] == cols[k] { }
    assert ts[..|ts|] == ts;
  }

  /** The two loops of writeField: the free pass, then the pass over all
      other particles, pushing into the same vectors. */
  method FreeFirstCopy(pos: seq<seq<real>>, speed: seq<seq<real>>,
                       density: seq<real>, pressure: seq<real>, mass: seq<real>, ts: seq<int>)
    returns (pos': seq<seq<real>>, speed': seq<seq<real>>,
             density': seq<real>, pressure': seq<real>, mass': seq<real>, count: int)
    requires |pos| == 3 && |speed| == 3
    requires forall c :: 0 <= c < 3 ==> |pos[c]| == |ts| && |speed[c]| == |ts|
    requires |density| == |ts| && |pressure| == |ts| && |mass| == |ts|
    ensures |pos'| == 3 && |speed'| == 3
    ensures forall c :: 0 <= c < 3 ==> pos'[c] == FreeFirst(pos[c], ts) && speed'[c] == FreeFirst(speed[c], ts)
    ensures density' == FreeFirst(density, ts) && pressure' == FreeFirst(pressure, ts)
    ensures mass' == FreeFirst(mass, ts)
    ensures count == TypeCount(ts, FREE_PART)
  {
    var cols := [pos[0], pos[1], pos[2], speed[0], speed[1], speed[2], density, pressure, mass];
    var free, others, nOthers;
    free, count := CopyPass(cols, ts, true);
    others, nOthers := CopyPass(cols, ts, false);
    pos' := [free[0] + others[0], free[1] + others[1], free[2] + others[2]];
    speed' := [free[3] + others[3], free[4] + others[4], free[5] + others[5]];
    density', pressure', mass' := free[6] + others[6], free[7] + others[7], free[8] + others[8];
  }

  /** The body of writeField's guarded block: the counters, bounds and time
      are copied and the per-particle arrays filled free-first. nTotal,
      nextK and the type vector are not touched. */
  method CopyInto(field: Field, newField: Field) returns (count: int)
    requires field.Consistent() && field != newField
    modifies newField
    ensures newField.Shaped()
    ensures newField.partType == old(newField.partType) && newField.nTotal == old(newField.nTotal)
    ensures newField.nextK == old(newField.nextK)
    ensures newField.nFree == field.nFree && newField.nFixed == field.nFixed
    ensures newField.nMoving == field.nMoving && newField.l == field.l && newField.u == field.u
    ensures newField.currentTime == field.currentTime
    ensures count == TypeCount(field.partType, FREE_PART)
    ensures forall c :: 0 <= c < 3 ==>
              newField.pos[c] == FreeFirst(field.pos[c], field.partType)
              && newField.speed[c] == FreeFirst(field.speed[c], field.partType)
    ensures newField.density == FreeFirst(field.density, field.partType)
    ensures newField.pressure == FreeFirst(field.pressure, field.partType)
    ensures newField.mass == FreeFirst(field.mass, field.partType)
  {
    var pos, speed, density, pressure, mass;
    pos, speed, density, pressure, mass, count :=
      FreeFirstCopy(field.pos, field.speed, field.density, field.pressure, field.mass, field.partType);
    CopyHeader(field, newField);
    newField.pos, newField.speed := pos, speed;
    newField.density, newField.pressure, newField.mass := density, pressure, mass;
  }

  /** Lines 26-35 of writeField: counters, bounds and time. */
  method CopyHeader(field: Field, newField: Field)
    requires field.Shaped() && field != newField
    modifies newField
    ensures newField.nFree == field.nFree && newField.nFixed == field.nFixed
    ensures newField.nMoving == field.nMoving && newField.l == field.l && newField.u == field.u
    ensures newField.currentTime == field.currentTime
    ensures newField.pos == old(newField.pos) && newField.speed == old(newField.speed)
    ensures newField.density == old(newField.density) && newField.pressure == old(newField.pressure)
    ensures newField.mass == old(newField.mass) && newField.partType == old(newField.partType)
    ensures newField.nTotal == old(newField.nTotal) && newField.nextK == old(newField.nextK)
  {
    var l := [field.l[0], field.l[1], field.l[2]];
    var u := [field.u[0], field.u[1], field.u[2]];
    assert l == field.l && u == field.u;
    newField.nFree, newField.nFixed, newField.nMoving := field.nFree, field.nFixed, field.nMoving;
    newField.l, newField.u, newField.currentTime := l, u, field.currentTime;
  }

  /** The copy made by writeField. With output enabled, the new Field has
      the counters, bounds and time of the old one and every per-particle
      array reordered free-first; count is the number of free particles.
      Its type vector is reserved but never filled, so it stays empty, and
      nTotal and nextK keep their initial values. Without output, nothing
      is copied. The old Field is only read. */
  method Reorder(field: Field, paraview: Paraview, matlab: Matlab) returns (newField: Field, count: int)
    requires field.Consistent()
    ensures fresh(newField) && newField.Shaped()
    ensures newField.partType == [] && newField.nTotal == 0 && newField.nextK == 0.0
    ensures !WritesOutput(paraview, matlab) ==>
              count == 0 && newField.Size() == 0 && newField.density == [] && newField.currentTime == 0.0
    ensures WritesOutput(paraview, matlab) ==>
              newField.nFree == field.nFree && newField.nFixed == field.nFixed
              && newField.nMoving == field.nMoving && newField.l == field.l && newField.u == field.u
              && newField.currentTime == field.currentTime
              && count == TypeCount(field.partType, FREE_PART)
              && (forall c :: 0 <= c < 3 ==>
                    newField.pos[c] == FreeFirst(field.pos[c], field.partType)
                    && newField.speed[c] == FreeFirst(field.speed[c], field.partType))
              && newField.density == FreeFirst(field.density, field.partType)
              && newField.pressure == FreeFirst(field.pressure, field.partType)
              && newField.mass == FreeFirst(field.mass, field.partType)
  {
    newField := new Field();
    count := 0;
    if WritesOutput(paraview, matlab) {
      count := CopyInto(field, newField);
    }
  }

  // ---------------------------------------------------------------------
  // writeField, lines 82-121: the ParaView ranges
  // ---------------------------------------------------------------------

  /** One call of the ParaView writer: the name it writes under and the
      range [start, end) of the reordered Field it writes. */
  datatype Output = Output(name: string, start: int, end: int)

  /** The branches of writeField that pick nbpStart and nbpEnd. The full
      mode writes every particle; the free mode the first count; the
      moving-and-fixed mode the rest; the combined mode both of the latter,
      free first, and together they cover every particle exactly once. */
  method ParaviewRanges(filename: string, paraview: Paraview, nbp: int, count: int)
    returns (outputs: seq<Output>)
    ensures paraview == NoParaview ==> outputs == []
    ensures paraview == FullParaview ==> outputs == [Output(filename + "_Full", 0, nbp)]
    ensures paraview == NFreeParaview ==> outputs == [Output(filename + "_Free", 0, count)]
    ensures paraview == NMovingFixedParaview ==> outputs == [Output(filename + "_MovingFixed", count, nbp)]
    ensures paraview == NFreeNMovingFixedParaview ==>
              |outputs| == 2 && outputs[0].name == filename + "_Free" && outputs[1].name == filename + "_MovingFixed"
              && outputs[0].start == 0 && outputs[0].end == outputs[1].start == count && outputs[1].end == nbp
    ensures outputs == ParaviewOutputs(filename, paraview, nbp, count)
  {
    outputs := [];
    if paraview != NoParaview {
      var nbpStart, nbpEnd;
      if paraview == FullParaview {
        nbpStart, nbpEnd := 0, nbp;
        outputs := outputs + [Output(filename + "_Full", nbpStart, nbpEnd)];
      }
      if paraview == NFreeParaview || paraview == NFreeNMovingFixedParaview {
        nbpStart, nbpEnd := 0, count;
        outputs := outputs + [Output(filename + "_Free", nbpStart, nbpEnd)];
      }
      if paraview == NMovingFixedParaview || paraview == NFreeNMovingFixedParaview {
        nbpStart, nbpEnd := count, nbp;
        outputs := outputs + [Output(filename + "_MovingFixed", nbpStart, nbpEnd)];
      }
    }
  }

  /** What a ParaView output holds: the free output only free particles,
      every one of them; the moving-and-fixed output only the others, every
      one of them. The types are the original types reordered free-first,
      since the copy's type stays empty. */
  predicate OutputHolds(o: Output, filename: string, ts: seq<int>)
    requires |FreeFirst(ts, ts)| == |ts|
  {
    0 <= o.start <= o.end <= |ts|
    && (o.name == filename + "_Free" ==>
          forall i :: 0 <= i < |ts| ==> (o.start <= i < o.end <==> FreeFirst(ts, ts)[i] == FREE_PART))
    && (o.name == filename + "_MovingFixed" ==>
          forall i :: 0 <= i < |ts| ==> (o.start <= i < o.end <==> FreeFirst(ts, ts)[i] != FREE_PART))
  }

  /** With nbp and count as writeField computes them, every ParaView
      output range lies inside the copy, and the free and moving-and-fixed
      outputs hold exactly the particles their names promise. */
  lemma RangesMatchTypes(filename: string, paraview: Paraview, ts: seq<int>, outputs: seq<Output>)
    requires outputs == ParaviewOutputs(filename, paraview, |ts|, TypeCount(ts, FREE_PART))
    ensures |FreeFirst(ts, ts)| == |ts|
    ensures forall k :: 0 <= k < |outputs| ==> OutputHolds(outputs[k], filename, ts)
  {
    FreeBlock(ts);
    PositionsCount(ts);
    NamesDiffer(filename);
    var count := TypeCount(ts, FREE_PART);
    match paraview
    case NoParaview =>
    case FullParaview =>
    case NFreeParaview =>
      FreeOutputHolds(filename, ts);
    case NMovingFixedParaview =>
      MovingFixedOutputHolds(filename, ts);
    case NFreeNMovingFixedParaview =>
      FreeOutputHolds(filename, ts);
      MovingFixedOutputHolds(filename, ts);
  }

  /** The three output names are distinct. */
  lemma NamesDiffer(filename: string)
    ensures filename + "_Free" != filename + "_MovingFixed"
    ensures filename + "_Full" != filename + "_Free"
    ensures filename + "_Full" != filename + "_MovingFixed"
  {
    assert (filename + "_Free")[|filename| + 1] == 'F';
    assert (filename + "_MovingFixed")[|filename| + 1] == 'M';
    assert (filename + "_Full")[|filename| + 2] == 'u';
    assert (filename + "_Free")[|filename| + 2] == 'r';
  }

  /** The free output [0, count) holds exactly the free particles. */
  lemma FreeOutputHolds(filename: string, ts: seq<int>)
    ensures |FreeFirst(ts, ts)| == |ts|
    ensures OutputHolds(Output(filename + "_Free", 0, TypeCount(ts, FREE_PART)), filename, ts)
  {
    FreeBlock(ts);
    PositionsCount(ts);
    NamesDiffer(filename);
  }

  /** The moving-and-fixed output [count, nbp) holds exactly the others. */
  lemma MovingFixedOutputHolds(filename: string, ts: seq<int>)
    ensures |FreeFirst(ts, ts)| == |ts|
    ensures OutputHolds(Output(filename + "_MovingFixed", TypeCount(ts, FREE_PART), |ts|), filename, ts)
  {
    FreeBlock(ts);
    PositionsCount(ts);
    NamesDiffer(filename);
  }

  /** The outputs ParaviewRanges produces, as a value. */
  function ParaviewOutputs(filename: string, paraview: Paraview, nbp: int, count: int): (outputs: seq<Output>)
    ensures paraview == NoParaview <==> outputs == []
  {
    match paraview
    case NoParaview => []
    case FullParaview => [Output(filename + "_Full", 0, nbp)]
    case NFreeParaview => [Output(filename + "_Free", 0, count)]
    case NMovingFixedParaview => [Output(filename + "_MovingFixed", count, nbp)]
    case NFreeNMovingFixedParaview =>
      [Output(filename + "_Free", 0, count), Output(filename + "_MovingFixed", count, nbp)]
  }

  // ---------------------------------------------------------------------
  // matlab: the file name
  // ---------------------------------------------------------------------

  /** The conversion of writeField's double time argument to matlab's int
      step: truncation toward zero. */
  function TruncateToInt(t: real): (step: int)
    ensures 0.0 <= t ==> step as real <= t < step as real + 1.0
    ensures t < 0.0 ==> step as real - 1.0 < t <= step as real
  {
    if t >= 0.0 then t.Floor else -((-t).Floor)
  }

  /** "Results/" + filename + "_" + step in at least eight characters,
      left-padded with '0' (a negative step keeps its sign after the
      padding, as std::setw does with the default right alignment), then
      ".txt". */
  function MatlabFileName(filename: string, step: int): (name: string)
    ensures |name| >= |filename| + 21
    ensures name[..8] == "Results/" && name[8..8 + |filename|] == filename
    ensures name[8 + |filename|] == '_' && name[|name| - 4..] == ".txt"
  {
    var padded := PadLeft(DecimalString(step), 8, '0');
    MatlabLayout(filename, padded);
    "Results/" + filename + "_" + padded + ".txt"
  }

  /** Where the parts of the Matlab file name sit. */
  lemma MatlabLayout(filename: string, padded: string)
    ensures var name := "Results/" + filename + "_" + padded + ".txt";
            |name| == |filename| + |padded| + 13
            && name[..8] == "Results/" && name[8..8 + |filename|] == filename
            && name[8 + |filename|] == '_' && name[|name| - 4..] == ".txt"
  {
    var name := "Results/" + filename + "_" + padded + ".txt";
    assert name[..8] == "Results/";
    assert name[8..8 + |filename|] == filename;
    assert name[|name| - 4..] == ".txt";
  }

  /** For steps 0 .. 99999999 the name has exactly |filename| + 21
      characters and the eight characters before ".txt" are decimal digits
      that read back as the step. */
  lemma MatlabStepRoundTrip(filename: string, step: int)
    requires 0 <= step < 100000000
    ensures var name := MatlabFileName(filename, step);
            var field := name[9 + |filename|..17 + |filename|];
            |name| == |filename| + 21 && IsDigits(field) && ParseDigits(field) == step
  {
    assert Pow10(8) == 100000000;
    DigitsLength(step, 8);
    var d := Digits(step);
    ParseDigitsOfDigits(step);
    ParseDigitsLeadingZeros(8 - |d|, d);
    var name := MatlabFileName(filename, step);
    assert name == "Results/" + filename + "_" + (Repeat('0', 8 - |d|) + d) + ".txt";
    assert name[9 + |filename|..17 + |filename|] == Repeat('0', 8 - |d|) + d;
  }

  /** The whole of writeField, files aside: the free-first copy, the ranges
      handed to the ParaView writer (over nbp = the copy's size and the
      free count) and the name handed to the Matlab writer. */
  method WriteField(field: Field, t: real, paraview: Paraview, matlab: Matlab, filename: string)
    returns (newField: Field, outputs: seq<Output>, matlabFile: seq<string>)
    requires field.Consistent()
    ensures fresh(newField) && newField.Shaped()
    ensures outputs == ParaviewOutputs(filename, paraview, |field.pos[0]|, TypeCount(field.partType, FREE_PART))
    ensures matlab == NoMatlab ==> matlabFile == []
    ensures matlab != NoMatlab ==> matlabFile == [MatlabFileName(filename, TruncateToInt(t))]
    ensures WritesOutput(paraview, matlab) ==>
              newField.Size() == field.Size()
              && forall c :: 0 <= c < 3 ==> newField.pos[c] == FreeFirst(field.pos[c], field.partType)
  {
    var count;
    newField, count := Reorder(field, paraview, matlab);
    ghost var n, free := |field.pos[0]|, TypeCount(field.partType, FREE_PART);
    if WritesOutput(paraview, matlab) {
      FreeFirstPermutes(field.pos[0], field.partType);
      assert |newField.pos[0]| == n && count == free;
    }
    outputs := [];
    if paraview != NoParaview {
      var nbp := |newField.pos[0]|;
      outputs := ParaviewRanges(filename, paraview, nbp, count);
    }
    matlabFile := [];
    if matlab != NoMatlab {
      matlabFile := [MatlabFileName(filename, TruncateToInt(t))];
    }
  }
}
