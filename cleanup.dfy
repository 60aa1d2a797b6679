/** The Field utilities of CPP_Tools/CleanUp.cpp: emptying the boxes of the
    neighbour search, copying one Field into another and exchanging the two
    Field pointers of the time integration. */
module CleanUp {
  import opened Structures

  /** boxClear: every box is emptied; the number of boxes is kept. */
  method BoxClear(boxes: array<seq<int>>)
    modifies boxes
    ensures forall i :: 0 <= i < boxes.Length ==> boxes[i] == []
  {
    for i := 0 to boxes.Length
      invariant forall j :: 0 <= j < i ==> boxes[j] == []
    {
      boxes[i] := [];
    }
  }

  /** copyField: the target receives the source's counters, bounds and every
      per-particle array; its nextK and currentTime are left as they were.
      The source is only read. The target is documented as another, empty
      Field, so the two are distinct. */
  method CopyField(sourceField: Field, copiedField: Field)
    requires sourceField.Shaped() && copiedField.Shaped() && sourceField != copiedField
    modifies copiedField
    ensures copiedField.l == sourceField.l && copiedField.u == sourceField.u
    ensures copiedField.nFree == sourceField.nFree && copiedField.nFixed == sourceField.nFixed
    ensures copiedField.nMoving == sourceField.nMoving && copiedField.nTotal == sourceField.nTotal
    ensures copiedField.mass == sourceField.mass && copiedField.partType == sourceField.partType
    ensures copiedField.pressure == sourceField.pressure && copiedField.density == sourceField.density
    ensures copiedField.pos == sourceField.pos && copiedField.speed == sourceField.speed
    ensures copiedField.nextK == old(copiedField.nextK) && copiedField.currentTime == old(copiedField.currentTime)
    ensures unchanged(sourceField)
    ensures sourceField.Consistent() ==> copiedField.Consistent()
  {
    var nTotal := sourceField.nTotal;
    CopyBounds(sourceField, copiedField);
    copiedField.nFree := sourceField.nFree;
    copiedField.nFixed := sourceField.nFixed;
    copiedField.nMoving := sourceField.nMoving;
    copiedField.nTotal := nTotal;

    copiedField.mass := sourceField.mass;
    copiedField.partType := sourceField.partType;
    copiedField.pressure := sourceField.pressure;
    copiedField.density := sourceField.density;

    CopyCoordinates(sourceField, copiedField);
  }

  /** The first loop of copyField: l[i] and u[i] for i < 3. */
  method CopyBounds(sourceField: Field, copiedField: Field)
    requires sourceField.Shaped() && copiedField.Shaped() && sourceField != copiedField
    modifies copiedField
    ensures copiedField.l == sourceField.l && copiedField.u == sourceField.u
    ensures copiedField.nFree == old(copiedField.nFree) && copiedField.nFixed == old(copiedField.nFixed)
    ensures copiedField.nMoving == old(copiedField.nMoving) && copiedField.nTotal == old(copiedField.nTotal)
    ensures copiedField.nextK == old(copiedField.nextK) && copiedField.currentTime == old(copiedField.currentTime)
    ensures copiedField.pos == old(copiedField.pos) && copiedField.speed == old(copiedField.speed)
  {
    for i := 0 to 3
      invariant |copiedField.l| == 3 && |copiedField.u| == 3
      invariant forall k :: 0 <= k < i ==> copiedField.l[k] == sourceField.l[k] && copiedField.u[k] == sourceField.u[k]
      invariant copiedField.nFree == old(copiedField.nFree) && copiedField.nFixed == old(copiedField.nFixed)
      invariant copiedField.nMoving == old(copiedField.nMoving) && copiedField.nTotal == old(copiedField.nTotal)
      invariant copiedField.nextK == old(copiedField.nextK) && copiedField.currentTime == old(copiedField.currentTime)
      invariant copiedField.pos == old(copiedField.pos) && copiedField.speed == old(copiedField.speed)
    {
      copiedField.l := copiedField.l[i := sourceField.l[i]];
      copiedField.u := copiedField.u[i := sourceField.u[i]];
    }
    assert copiedField.l == sourceField.l && copiedField.u == sourceField.u;
  }

  /** The last loop of copyField: pos[j] and speed[j] for j < 3. */
  method CopyCoordinates(sourceField: Field, copiedField: Field)
    requires sourceField.Shaped() && copiedField.Shaped() && sourceField != copiedField
    modifies copiedField
    ensures copiedField.pos == sourceField.pos && copiedField.speed == sourceField.speed
    ensures copiedField.l == old(copiedField.l) && copiedField.u == old(copiedField.u)
    ensures copiedField.nFree == old(copiedField.nFree) && copiedField.nFixed == old(copiedField.nFixed)
    ensures copiedField.nMoving == old(copiedField.nMoving) && copiedField.nTotal == old(copiedField.nTotal)
    ensures copiedField.nextK == old(copiedField.nextK) && copiedField.currentTime == old(copiedField.currentTime)
    ensures copiedField.mass == old(copiedField.mass) && copiedField.partType == old(copiedField.partType)
    ensures copiedField.pressure == old(copiedField.pressure) && copiedField.density == old(copiedField.density)
  {
    for j := 0 to 3
      invariant |copiedField.pos| == 3 && |copiedField.speed| == 3
      invariant forall k :: 0 <= k < j ==> copiedField.pos[k] == sourceField.pos[k] && copiedField.speed[k] == sourceField.speed[k]
      invariant copiedField.l == old(copiedField.l) && copiedField.u == old(copiedField.u)
      invariant copiedField.nFree == old(copiedField.nFree) && copiedField.nFixed == old(copiedField.nFixed)
      invariant copiedField.nMoving == old(copiedField.nMoving) && copiedField.nTotal == old(copiedField.nTotal)
      invariant copiedField.nextK == old(copiedField.nextK) && copiedField.currentTime == old(copiedField.currentTime)
      invariant copiedField.mass == old(copiedField.mass) && copiedField.partType == old(copiedField.partType)
      invariant copiedField.pressure == old(copiedField.pressure) && copiedField.density == old(copiedField.density)
    {
      copiedField.pos := copiedField.pos[j := sourceField.pos[j]];
      copiedField.speed := copiedField.speed[j := sourceField.speed[j]];
    }
    assert copiedField.pos == sourceField.pos && copiedField.speed == sourceField.speed;
  }

  /** A variable of type Field*: the caller's handle on a Field. */
  class FieldPointer {
    var target: Field

    constructor (f: Field)
      ensures target == f
    {
      target := f;
    }
  }

  /** swapField: the two pointers exchange the Fields they point to,
      through a temporary. No Field is touched. */
  method SwapField(hopField: FieldPointer, cornField: FieldPointer)
    modifies hopField, cornField
    ensures hopField.target == old(cornField.target) && cornField.target == old(hopField.target)
  {
    var tmpField := hopField.target;
    hopField.target := cornField.target;
    cornField.target := tmpField;
  }

  /** Swapping twice gives back the original pair. */
  method SwapFieldTwice(hopField: FieldPointer, cornField: FieldPointer)
    modifies hopField, cornField
    ensures hopField.target == old(hopField.target) && cornField.target == old(cornField.target)
  {
    SwapField(hopField, cornField);
    SwapField(hopField, cornField);
  }
}
