/**
  The two circuit services the block-conversion pass uses: replacing the
  operation anchored at a circuit point, and the whole-circuit unitary the
  pass must preserve.
*/
module Circuits {
  import opened Wrappers
  import opened IR

  /** Some qudit appears in both locations. */
  predicate Overlaps(a: seq<nat>, b: seq<nat>) {
    exists q :: q in a && q in b
  }

  /** `point` addresses the operation `co`: same cycle, and its qudit is in the location. */
  predicate Anchors(co: CycleOp, point: CircuitPoint) {
    co.cycle == point.cycle && point.qudit in co.op.location
  }

  /**
    A well-formed circuit: every operation sits on at least one qudit, and
    two operations of the same cycle never share a qudit.
  */
  ghost predicate WellFormed(c: Circuit) {
    && (forall i :: 0 <= i < |c.ops| ==> |c.ops[i].op.location| > 0)
    && (forall i, j :: 0 <= i < j < |c.ops| && c.ops[i].cycle == c.ops[j].cycle ==>
          !Overlaps(c.ops[i].op.location, c.ops[j].op.location))
  }

  /** `a` and `b` have the same operations' cycles and locations, position by position. */
  ghost predicate SameShape(a: Circuit, b: Circuit) {
    && |a.ops| == |b.ops|
    && forall i :: 0 <= i < |a.ops| ==>
         a.ops[i].cycle == b.ops[i].cycle && a.ops[i].op.location == b.ops[i].op.location
  }

  lemma SameShapeWellFormed(a: Circuit, b: Circuit)
    requires WellFormed(a) && SameShape(a, b)
    ensures WellFormed(b)
  {
  }

  /** The position of the first operation `point` addresses, if there is one. */
  function FindAnchor(ops: seq<CycleOp>, point: CircuitPoint): (r: Option<nat>)
    ensures r.Some? ==> r.value < |ops| && Anchors(ops[r.value], point)
    ensures r.Some? ==> forall j :: 0 <= j < r.value ==> !Anchors(ops[j], point)
    ensures r.None? <==> forall j :: 0 <= j < |ops| ==> !Anchors(ops[j], point)
  {
    if ops == [] then None
    else if Anchors(ops[0], point) then Some(0)
    else match FindAnchor(ops[1..], point)
      case None => None
      case Some(i) =>
        assert Anchors(ops[1..][i], point);
        Some(i + 1)
  }

  /** Position `i` holds the first operation `point` addresses. */
  predicate FirstAnchor(ops: seq<CycleOp>, point: CircuitPoint, i: int) {
    && 0 <= i < |ops|
    && Anchors(ops[i], point)
    && forall k :: 0 <= k < i ==> !Anchors(ops[k], point)
  }

  /** Some operation of `cycle`, other than the one at position `i`, meets `location`. */
  predicate ConflictsInCycle(ops: seq<CycleOp>, i: int, cycle: nat, location: seq<nat>) {
    exists j :: 0 <= j < |ops| && j != i && ops[j].cycle == cycle && Overlaps(ops[j].op.location, location)
  }

  /**
    `Circuit.replace_gate(point, gate, location, params)`: the operation
    anchored at `point` is replaced, in the same cycle and at the same place
    of the traversal, by `Operation(gate, location, params)`. Fails with
    `NotFound` if nothing is anchored at `point`, and with `LocationConflict`
    if the new location meets another operation of that cycle.
  */
  function ReplaceGate(c: Circuit, point: CircuitPoint, gate: Gate, location: seq<nat>, params: seq<real>)
    : (r: Result<Circuit, Error>)
    ensures (forall j :: 0 <= j < |c.ops| ==> !Anchors(c.ops[j], point)) <==> r == Failure(NotFound)
    ensures r.Failure? ==> r.error == NotFound || r.error == LocationConflict
    ensures r.Success? ==> r.value.radixes == c.radixes && |r.value.ops| == |c.ops|
    ensures r.Success? ==>
              (exists i :: FirstAnchor(c.ops, point, i) &&
                 r.value.ops == c.ops[i := CycleOp(point.cycle, Operation(gate, location, params))])
    ensures r == Failure(LocationConflict) <==>
              (exists i :: FirstAnchor(c.ops, point, i) && ConflictsInCycle(c.ops, i, point.cycle, location))
  {
    match FindAnchor(c.ops, point)
    case None => Failure(NotFound)
    case Some(i) =>
      assert FirstAnchor(c.ops, point, i);
      if ConflictsInCycle(c.ops, i, point.cycle, location) then Failure(LocationConflict)
      else Success(Circuit(c.radixes, c.ops[i := CycleOp(point.cycle, Operation(gate, location, params))]))
  }

  /**
    In a well-formed circuit, replacing the operation at position `i`, through
    a point on one of its own qudits, by one over the same location succeeds
    and changes that position only.
  */
  lemma ReplaceAtOwnAnchor(c: Circuit, i: nat, q: nat, gate: Gate, params: seq<real>)
    requires WellFormed(c)
    requires i < |c.ops| && q in c.ops[i].op.location
    ensures ReplaceGate(c, CircuitPoint(c.ops[i].cycle, q), gate, c.ops[i].op.location, params)
         == Success(Circuit(c.radixes, c.ops[i := CycleOp(c.ops[i].cycle, Operation(gate, c.ops[i].op.location, params))]))
  {
  }

  /**
    `Circuit.get_unitary`: the product `U_last * ... * U_0` of every
    operation's matrix embedded into the whole circuit, in traversal order.
  */
  function CircuitUnitary(num: Numerics, c: Circuit): (r: Unitary)
    ensures c.ops == [] ==> r == num.identity(c.radixes)
  {
    Compose(num, c.radixes, c.ops)
  }

  /**
    Appending an operation multiplies the circuit's unitary on the left by
    that operation's matrix embedded at its location.
  */
  lemma CircuitUnitaryAppend(num: Numerics, c: Circuit, co: CycleOp)
    ensures CircuitUnitary(num, Circuit(c.radixes, c.ops + [co]))
         == num.mul(num.embed(OpUnitary(num, co.op), co.op.location, c.radixes), CircuitUnitary(num, c))
  {
  }

  function Compose(num: Numerics, radixes: seq<nat>, ops: seq<CycleOp>): Unitary
    decreases |ops|
  {
    if ops == [] then num.identity(radixes)
    else
      var last := ops[|ops| - 1].op;
      num.mul(num.embed(OpUnitary(num, last), last.location, radixes), Compose(num, radixes, ops[..|ops| - 1]))
  }

  /**
    The whole-circuit unitary depends only on where each operation sits and
    which matrix it realises: circuits that agree on both have the same unitary.
  */
  lemma {:induction false} ComposeCongruence(num: Numerics, radixes: seq<nat>, a: seq<CycleOp>, b: seq<CycleOp>)
    requires |a| == |b|
    requires forall i :: 0 <= i < |a| ==>
      a[i].op.location == b[i].op.location && OpUnitary(num, a[i].op) == OpUnitary(num, b[i].op)
    ensures Compose(num, radixes, a) == Compose(num, radixes, b)
    decreases |a|
  {
    if a != [] {
      ComposeCongruence(num, radixes, a[..|a| - 1], b[..|b| - 1]);
    }
  }
}
