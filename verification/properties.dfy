/**
  Properties of the block-conversion pass that relate several calls: the
  flags a target ignores, which operations change, idempotence, the
  post-condition of a default run, and preservation of realised unitaries.
*/
module ConversionProperties {
  import opened IR
  import opened Circuits
  import opened Conversion

  /** With target `'variable'` the variable flag has no effect; with `'constant'` the constant flag has none. */
  lemma IgnoredFlags(v1: bool, v2: bool, c1: bool, c2: bool, g: bool)
    ensures NewBlockConversionPass("variable", v1, c1, g) == NewBlockConversionPass("variable", v2, c1, g)
    ensures NewBlockConversionPass("constant", v1, c1, g) == NewBlockConversionPass("constant", v1, c2, g)
  {
  }

  /** An operation changes exactly when its gate kind is one of the pass's origins. */
  lemma ChangedExactlyOrigins(p: BlockConversionPass, num: Numerics, c: Circuit)
    requires p.TargetNotOrigin()
    ensures forall i :: 0 <= i < |c.ops| ==>
              (Convert(p, num, c).ops[i] != c.ops[i] <==> p.Converts(c.ops[i].op))
  {
  }

  /** After a run, no operation is one the pass would convert. */
  lemma NothingLeftToConvert(p: BlockConversionPass, num: Numerics, c: Circuit)
    requires p.TargetNotOrigin()
    ensures forall i :: 0 <= i < |c.ops| ==> !p.Converts(Convert(p, num, c).ops[i].op)
  {
  }

  /** A second run of a constructed pass changes nothing. */
  lemma ConvertIdempotent(p: BlockConversionPass, num: Numerics, c: Circuit)
    requires p.TargetNotOrigin()
    ensures Convert(p, num, Convert(p, num, c)) == Convert(p, num, c)
  {
  }

  /**
    A pass built with the default flags, run over a circuit made only of
    blocks, leaves every operation of the target kind.
  */
  lemma DefaultRunConvertsAllBlocks(convertTarget: string, num: Numerics, c: Circuit)
    requires DefaultBlockConversionPass(convertTarget).Success?
    requires forall i :: 0 <= i < |c.ops| ==> IsBlockKind(c.ops[i].op.gate.Kind())
    ensures var p := DefaultBlockConversionPass(convertTarget).value;
            forall i :: 0 <= i < |c.ops| ==> Convert(p, num, c).ops[i].op.gate.Kind() == p.TargetKind()
  {
  }

  /**
    The conditions under which every converted operation realises the
    matrix it replaces: always for the constant target; for the variable
    target, given that parameter extraction realises its input and every
    operation the pass converts has a matrix of the size its radixes call for.
  */
  ghost predicate ExactlyRealisable(p: BlockConversionPass, num: Numerics, c: Circuit) {
    p.target == VariableTarget ==>
      && VariableParamsRealise(num)
      && forall i :: 0 <= i < |c.ops| && p.Converts(c.ops[i].op) ==> DimensionsAgree(num, c.ops[i].op)
  }

  /** Each operation of the converted circuit realises the same matrix as before. */
  lemma ConvertPreservesOpUnitaries(p: BlockConversionPass, num: Numerics, c: Circuit)
    requires ExactlyRealisable(p, num, c)
    ensures forall i :: 0 <= i < |c.ops| ==>
              OpUnitary(num, Convert(p, num, c).ops[i].op) == OpUnitary(num, c.ops[i].op)
  {
  }

  /** The converted circuit realises the same whole-circuit unitary. */
  lemma ConvertPreservesUnitary(p: BlockConversionPass, num: Numerics, c: Circuit)
    requires ExactlyRealisable(p, num, c)
    ensures CircuitUnitary(num, Convert(p, num, c)) == CircuitUnitary(num, c)
  {
    var r := Convert(p, num, c);
    ConvertPreservesOpUnitaries(p, num, c);
    ComposeCongruence(num, c.radixes, r.ops, c.ops);
  }

  /**
    Converting to constant blocks and then to variable blocks reproduces the
    original whole-circuit unitary.
  */
  lemma ConstantThenVariableRoundTrip(num: Numerics, c: Circuit)
    requires VariableParamsRealise(num)
    requires forall i :: 0 <= i < |c.ops| ==> DimensionsAgree(num, c.ops[i].op)
    ensures var toConstant := DefaultBlockConversionPass("constant").value;
            var toVariable := DefaultBlockConversionPass("variable").value;
            CircuitUnitary(num, Convert(toVariable, num, Convert(toConstant, num, c))) == CircuitUnitary(num, c)
  {
    var toConstant := DefaultBlockConversionPass("constant").value;
    var toVariable := DefaultBlockConversionPass("variable").value;
    var mid := Convert(toConstant, num, c);
    ConvertPreservesUnitary(toConstant, num, c);
    ConvertPreservesOpUnitaries(toConstant, num, c);
    assert forall i :: 0 <= i < |mid.ops| ==> DimensionsAgree(num, mid.ops[i].op);
    ConvertPreservesUnitary(toVariable, num, mid);
  }

  /**
    A three-qudit circuit holding one circuit gate over qudits 0, 1 and 2
    becomes, under the default `'variable'` pass, a circuit whose single
    operation is a variable unitary gate over the same qudits in the same
    cycle, with the same whole-circuit unitary.
  */
  lemma CircuitGateToVariableScenario(num: Numerics, sub: Circuit, params: seq<real>)
    requires |sub.radixes| == 3
    requires VariableParamsRealise(num)
    requires num.dim(num.circuitGateUnitary(sub, params)) == Dim(sub.radixes)
    ensures var c := Circuit(sub.radixes, [CycleOp(0, Operation(CircuitGate(sub), [0, 1, 2], params))]);
            var r := Convert(DefaultBlockConversionPass("variable").value, num, c);
            && |r.ops| == 1
            && r.ops[0].cycle == 0
            && r.ops[0].op.location == [0, 1, 2]
            && r.ops[0].op.gate == VariableUnitaryGate(3, sub.radixes)
            && CircuitUnitary(num, r) == CircuitUnitary(num, c)
  {
  }

  /**
    The same circuit under the default `'constant'` pass becomes one
    constant unitary gate holding the circuit gate's matrix, with the same
    whole-circuit unitary and no assumption about parameter extraction.
  */
  lemma CircuitGateToConstantScenario(num: Numerics, sub: Circuit, params: seq<real>)
    requires |sub.radixes| == 3
    ensures var c := Circuit(sub.radixes, [CycleOp(0, Operation(CircuitGate(sub), [0, 1, 2], params))]);
            var r := Convert(DefaultBlockConversionPass("constant").value, num, c);
            && |r.ops| == 1
            && r.ops[0].cycle == 0
            && r.ops[0].op.location == [0, 1, 2]
            && r.ops[0].op.gate == ConstantUnitaryGate(num.circuitGateUnitary(sub, params), sub.radixes)
            && r.ops[0].op.params == []
            && CircuitUnitary(num, r) == CircuitUnitary(num, c)
  {
  }

  /**
    Embedding a matrix over all three qudits of a three-qudit circuit, after
    the identity, gives back that matrix.
  */
  ghost predicate WholeCircuitEmbedExact(num: Numerics, radixes: seq<nat>) {
    forall u :: num.mul(num.embed(u, [0, 1, 2], radixes), num.identity(radixes)) == u
  }

  /**
    The tests' comparison: when the circuit gate realises its sub-circuit's
    unitary, the circuit converted to a variable block has the unitary of the
    sub-circuit it was built from.
  */
  lemma CircuitGateToVariableMatchesSubCircuit(num: Numerics, sub: Circuit, params: seq<real>)
    requires |sub.radixes| == 3
    requires VariableParamsRealise(num)
    requires num.dim(num.circuitGateUnitary(sub, params)) == Dim(sub.radixes)
    requires num.circuitGateUnitary(sub, params) == CircuitUnitary(num, sub)
    requires WholeCircuitEmbedExact(num, sub.radixes)
    ensures var c := Circuit(sub.radixes, [CycleOp(0, Operation(CircuitGate(sub), [0, 1, 2], params))]);
            CircuitUnitary(num, Convert(DefaultBlockConversionPass("variable").value, num, c)) == CircuitUnitary(num, sub)
  {
    var c := Circuit(sub.radixes, [CycleOp(0, Operation(CircuitGate(sub), [0, 1, 2], params))]);
    CircuitGateToVariableScenario(num, sub, params);
    assert c.ops[..|c.ops| - 1] == [];
    assert Compose(num, sub.radixes, []) == num.identity(sub.radixes);
    assert OpUnitary(num, c.ops[0].op) == num.circuitGateUnitary(sub, params);
    assert CircuitUnitary(num, c)
        == num.mul(num.embed(num.circuitGateUnitary(sub, params), [0, 1, 2], sub.radixes), num.identity(sub.radixes));
  }

  /** The same comparison for the conversion to a constant block. */
  lemma CircuitGateToConstantMatchesSubCircuit(num: Numerics, sub: Circuit, params: seq<real>)
    requires |sub.radixes| == 3
    requires num.circuitGateUnitary(sub, params) == CircuitUnitary(num, sub)
    requires WholeCircuitEmbedExact(num, sub.radixes)
    ensures var c := Circuit(sub.radixes, [CycleOp(0, Operation(CircuitGate(sub), [0, 1, 2], params))]);
            CircuitUnitary(num, Convert(DefaultBlockConversionPass("constant").value, num, c)) == CircuitUnitary(num, sub)
  {
    var c := Circuit(sub.radixes, [CycleOp(0, Operation(CircuitGate(sub), [0, 1, 2], params))]);
    CircuitGateToConstantScenario(num, sub, params);
    assert c.ops[..|c.ops| - 1] == [];
    assert Compose(num, sub.radixes, []) == num.identity(sub.radixes);
    assert OpUnitary(num, c.ops[0].op) == num.circuitGateUnitary(sub, params);
    assert CircuitUnitary(num, c)
        == num.mul(num.embed(num.circuitGateUnitary(sub, params), [0, 1, 2], sub.radixes), num.identity(sub.radixes));
  }
}
