/**
  `BlockConversionPass`: converts blocks of one kind (constant unitary,
  variable unitary or circuit gates) into the target kind (variable or
  constant unitary), one operation at a time, in place.
*/
module Conversion {
  import opened Wrappers
  import opened IR
  import opened Circuits

  /** The form blocks are converted to. */
  datatype Target = VariableTarget | ConstantTarget

  /**
    A configured pass: the target form, and the list of gate kinds whose
    operations it replaces. The target gate class and the conversion
    function both follow from `target`.
  */
  datatype BlockConversionPass = BlockConversionPass(target: Target, origins: seq<GateKind>)
  {
    /** The gate class conversions produce. */
    function TargetKind(): GateKind {
      match target
      case VariableTarget => VariableUnitaryKind
      case ConstantTarget => ConstantUnitaryKind
    }

    /** The operation is one the pass converts. */
    predicate Converts(op: Operation) {
      op.gate.Kind() in origins
    }

    /** No operation the pass produces is one it would convert again. */
    predicate TargetNotOrigin() {
      TargetKind() !in origins
    }
  }

  const TargetErrorMessage := "Unexpected input for conversion target."

  /**
    The pass constructor. `'variable'` targets variable unitary gates and may
    take constant unitary gates as origin; `'constant'` targets constant
    unitary gates and may take variable unitary gates as origin; circuit
    gates are an origin in either case when asked for. Any other target is a
    `ValueError` and no pass is built.
  */
  function NewBlockConversionPass(
    convertTarget: string,
    convertVariable: bool,
    convertConstant: bool,
    convertCircuitGates: bool
  ): (r: Result<BlockConversionPass, Error>)
    ensures r.Failure? <==> convertTarget != "variable" && convertTarget != "constant"
    ensures r.Failure? ==> r.error == ValueError(TargetErrorMessage)
    ensures convertTarget == "variable" ==>
      && r.Success?
      && r.value.TargetKind() == VariableUnitaryKind
      && (ConstantUnitaryKind in r.value.origins <==> convertConstant)
      && VariableUnitaryKind !in r.value.origins
    ensures convertTarget == "constant" ==>
      && r.Success?
      && r.value.TargetKind() == ConstantUnitaryKind
      && (VariableUnitaryKind in r.value.origins <==> convertVariable)
      && ConstantUnitaryKind !in r.value.origins
    ensures r.Success? ==> (CircuitGateKind in r.value.origins <==> convertCircuitGates)
    ensures r.Success? ==> r.value.TargetNotOrigin()
    ensures r.Success? ==> forall k :: k in r.value.origins ==> IsBlockKind(k)
  {
    var chosen: Result<BlockConversionPass, Error> :=
      if convertTarget == "variable" then
        Success(BlockConversionPass(VariableTarget, if convertConstant then [ConstantUnitaryKind] else []))
      else if convertTarget == "constant" then
        Success(BlockConversionPass(ConstantTarget, if convertVariable then [VariableUnitaryKind] else []))
      else
        Failure(ValueError(TargetErrorMessage));
    if chosen.Success? && convertCircuitGates then
      Success(chosen.value.(origins := chosen.value.origins + [CircuitGateKind]))
    else
      chosen
  }

  /** The constructor with its default flags: every origin kind enabled. */
  function DefaultBlockConversionPass(convertTarget: string): (r: Result<BlockConversionPass, Error>)
    ensures r.Success? <==> convertTarget == "variable" || convertTarget == "constant"
    ensures r.Success? ==> forall k :: IsBlockKind(k) ==> (k in r.value.origins <==> k != r.value.TargetKind())
  {
    NewBlockConversionPass(convertTarget, true, true, true)
  }

  /**
    `convert_op_to_constant`: a constant unitary gate holding the matrix the
    operation realises, over the operation's radixes, with no parameters.
  */
  function ConvertOpToConstant(num: Numerics, op: Operation): (r: (Gate, seq<real>))
    ensures r.0.Kind() == ConstantUnitaryKind
    ensures r.0.Radixes() == op.Radixes()
    ensures r.1 == []
    ensures GateUnitary(num, r.0, r.1) == OpUnitary(num, op)
  {
    (ConstantUnitaryGate(OpUnitary(num, op), op.Radixes()), [])
  }

  /**
    `convert_op_to_variable`: a variable unitary gate over the operation's
    qudit count and radixes, with the parameters extracted from the matrix
    the operation realises.
  */
  function ConvertOpToVariable(num: Numerics, op: Operation): (r: (Gate, seq<real>))
    ensures r.0.Kind() == VariableUnitaryKind
    ensures r.0.Radixes() == op.Radixes() && r.0.NumQudits() == op.NumQudits()
    ensures r.1 == num.variableParams(OpUnitary(num, op))
    ensures VariableParamsRealise(num) && DimensionsAgree(num, op) ==>
              GateUnitary(num, r.0, r.1) == OpUnitary(num, op)
  {
    (VariableUnitaryGate(op.NumQudits(), op.Radixes()), num.variableParams(OpUnitary(num, op)))
  }

  /** `conversion_operation`: the conversion function the target selects. */
  function ConversionOperation(p: BlockConversionPass, num: Numerics, op: Operation): (r: (Gate, seq<real>))
    ensures r.0.Kind() == p.TargetKind()
    ensures r.0.Radixes() == op.Radixes()
    ensures p.target == ConstantTarget || (VariableParamsRealise(num) && DimensionsAgree(num, op)) ==>
              GateUnitary(num, r.0, r.1) == OpUnitary(num, op)
  {
    match p.target
    case VariableTarget => ConvertOpToVariable(num, op)
    case ConstantTarget => ConvertOpToConstant(num, op)
  }

  /** What the pass makes of one traversal element. */
  function ConvertCycleOp(p: BlockConversionPass, num: Numerics, co: CycleOp): (r: CycleOp)
    ensures r.cycle == co.cycle && r.op.location == co.op.location
    ensures !p.Converts(co.op) ==> r == co
    ensures p.Converts(co.op) ==> r.op.gate.Kind() == p.TargetKind() && r.op.Radixes() == co.op.Radixes()
    ensures p.target == ConstantTarget || (VariableParamsRealise(num) && DimensionsAgree(num, co.op)) ==>
              OpUnitary(num, r.op) == OpUnitary(num, co.op)
  {
    if p.Converts(co.op) then
      var (gate, params) := ConversionOperation(p, num, co.op);
      CycleOp(co.cycle, Operation(gate, co.op.location, params))
    else
      co
  }

  function ConvertOps(p: BlockConversionPass, num: Numerics, ops: seq<CycleOp>): (r: seq<CycleOp>)
    ensures |r| == |ops|
    ensures forall i :: 0 <= i < |ops| ==> r[i] == ConvertCycleOp(p, num, ops[i])
  {
    if ops == [] then [] else [ConvertCycleOp(p, num, ops[0])] + ConvertOps(p, num, ops[1..])
  }

  /**
    The effect of `run`: every operation whose gate kind is an origin is
    replaced, at the same cycle and location, by one of the target kind over
    the same radixes; every other operation, the number and the order of
    operations, and the circuit's radixes are unchanged.
  */
  function Convert(p: BlockConversionPass, num: Numerics, c: Circuit): (r: Circuit)
    ensures r.radixes == c.radixes
    ensures SameShape(c, r)
    ensures forall i :: 0 <= i < |c.ops| && !p.Converts(c.ops[i].op) ==> r.ops[i] == c.ops[i]
    ensures forall i :: 0 <= i < |c.ops| && p.Converts(c.ops[i].op) ==>
              r.ops[i].op.gate.Kind() == p.TargetKind() && r.ops[i].op.Radixes() == c.ops[i].op.Radixes()
    ensures forall i :: 0 <= i < |c.ops| ==> r.ops[i] == ConvertCycleOp(p, num, c.ops[i])
  {
    Circuit(c.radixes, ConvertOps(p, num, c.ops))
  }

  /**
    `BlockConversionPass.run`: walk the live circuit's `(cycle, op)`
    pairs and, for each operation to convert, replace the gate at point
    `(cycle, location[0])` with the converted gate over the same location.
    An empty location is an `IndexError`; a failed replacement propagates.
    On a well-formed circuit this is exactly `Convert`.
  */
  method Run(p: BlockConversionPass, num: Numerics, c: Circuit) returns (r: Result<Circuit, Error>)
    ensures WellFormed(c) ==> r == Success(Convert(p, num, c))
    ensures r.Failure? ==> r.error == IndexError || r.error == NotFound || r.error == LocationConflict
  {
    var cur := c;
    var i := 0;
    while i < |cur.ops|
      invariant |cur.ops| == |c.ops| && i <= |c.ops|
      invariant WellFormed(c) ==> cur.radixes == c.radixes
      invariant WellFormed(c) ==> forall j :: 0 <= j < i ==> cur.ops[j] == ConvertCycleOp(p, num, c.ops[j])
      invariant WellFormed(c) ==> forall j :: i <= j < |c.ops| ==> cur.ops[j] == c.ops[j]
      invariant WellFormed(c) ==> SameShape(c, cur)
    {
      var co := cur.ops[i];
      if p.Converts(co.op) {
        var (gate, params) := ConversionOperation(p, num, co.op);
        if |co.op.location| == 0 {
          return Failure(IndexError);
        }
        var point := CircuitPoint(co.cycle, co.op.location[0]);
        var next := ReplaceGate(cur, point, gate, co.op.location, params);
        if next.Failure? {
          return Failure(next.error);
        }
        if WellFormed(c) {
          SameShapeWellFormed(c, cur);
          ReplaceAtOwnAnchor(cur, i, co.op.location[0], gate, params);
        }
        cur := next.value;
      }
      i := i + 1;
    }
    r := Success(cur);
    if WellFormed(c) {
      assert cur.ops == Convert(p, num, c).ops;
    }
  }
}
