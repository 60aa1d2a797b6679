/** The solver's shared types (Headers/Structures.h): the particle types, the
    output modes and the Field record whose parallel arrays hold one entry
    per particle. Doubles are modelled as reals. */
module Structures {

  /** ParticleType: the numeric values are fixed by the header. */
  const FREE_PART: int := 0
  const FIXED_PART: int := 1
  const MOVING_PART: int := 2

  /** Error codes returned by the solver's set-up steps. */
  datatype Error = NoError | ArgumentError | ParameterError | GeometryError | ConsistencyError

  /** Matlab output mode. */
  datatype Matlab = NoMatlab | FullMatlab

  /** ParaView output mode. */
  datatype Paraview =
    | NoParaview
    | FullParaview
    | NFreeParaview
    | NMovingFixedParaview
    | NFreeNMovingFixedParaview

  /** struct Field. The C++ member `type` is called partType here (type is a
      Dafny keyword). l, u, pos and speed are C arrays of three entries. */
  class Field {
    var nFree: int
    var nFixed: int
    var nMoving: int
    var nTotal: int
    var l: seq<real>
    var u: seq<real>
    var nextK: real
    var currentTime: real
    var pos: seq<seq<real>>
    var speed: seq<seq<real>>
    var density: seq<real>
    var pressure: seq<real>
    var mass: seq<real>
    var partType: seq<int>

    /** The fixed shape of the C arrays. */
    ghost predicate Shaped()
      reads this
    {
      |l| == 3 && |u| == 3 && |pos| == 3 && |speed| == 3
    }

    /** The number of particles, as the solver measures it: pos[0].size(). */
    function Size(): nat
      reads this
      requires Shaped()
    {
      |pos[0]|
    }

    /** Every per-particle array has one entry per particle. */
    ghost predicate Consistent()
      reads this
    {
      Shaped()
      && (forall c :: 0 <= c < 3 ==> |pos[c]| == Size() && |speed[c]| == Size())
      && |density| == Size() && |pressure| == Size() && |mass| == Size()
      && |partType| == Size()
    }

    /** Everything but the per-particle arrays is as it was. */
    twostate predicate ScalarsUnchanged()
      reads this
    {
      nFree == old(nFree) && nFixed == old(nFixed) && nMoving == old(nMoving)
      && nTotal == old(nTotal) && l == old(l) && u == old(u)
      && nextK == old(nextK) && currentTime == old(currentTime)
    }

    /** A Field declared as a local variable: the vectors are empty and
        nextK, currentTime start at 0.0; the counters and bounds, which C++
        leaves uninitialised, are given zero values here. */
    constructor ()
      ensures Consistent() && Size() == 0
      ensures partType == [] && nextK == 0.0 && currentTime == 0.0
      ensures nFree == 0 && nFixed == 0 && nMoving == 0 && nTotal == 0
    {
      nFree, nFixed, nMoving, nTotal := 0, 0, 0, 0;
      l, u := [0.0, 0.0, 0.0], [0.0, 0.0, 0.0];
      nextK, currentTime := 0.0, 0.0;
      pos, speed := [[], [], []], [[], [], []];
      density, pressure, mass := [], [], [];
      partType := [];
    }
  }

  /** struct SubdomainInfo: which process this is and which boxes and
      particles (indices into the local Field) it owns. */
  class SubdomainInfo {
    var procID: int
    var nTasks: int
    var startingBox: int
    var endingBox: int
    var startingParticle: int
    var endingParticle: int
    var boxSize: real

    constructor (procID: int, nTasks: int, boxSize: real)
      ensures this.procID == procID && this.nTasks == nTasks && this.boxSize == boxSize
      ensures startingBox == 0 && endingBox == 0 && startingParticle == 0 && endingParticle == 0
    {
      this.procID, this.nTasks, this.boxSize := procID, nTasks, boxSize;
      startingBox, endingBox, startingParticle, endingParticle := 0, 0, 0, 0;
    }
  }
}
