/**
  The intermediate representation the block-conversion pass works on: gates,
  operations (a gate placed on qudits with parameters) and circuits (a
  cycle-major sequence of operations, each tagged with its cycle).

  Matrices are kept abstract. A `Unitary` is an opaque value, and every piece
  of floating-point linear algebra the pass relies on (a gate's matrix, the
  variable gate's parameter extraction, embedding and multiplication for the
  whole-circuit unitary) is a function-valued field of a `Numerics` record
  that callers supply.
*/
module IR {

  /** An opaque unitary matrix. */
  type Unitary(!new)

  /** The gate classes the pass distinguishes by `isinstance`. */
  datatype GateKind =
    | ConstantUnitaryKind
    | VariableUnitaryKind
    | CircuitGateKind
    | OtherKind(name: string)

  /** The three block kinds: the gate classes a block may be expressed as. */
  predicate IsBlockKind(k: GateKind) {
    !k.OtherKind?
  }

  /**
    A gate descriptor.
    - `ConstantUnitaryGate(utry, radixes)` holds its fixed matrix;
    - `VariableUnitaryGate(numQudits, radixes)` is the general parameterised
      unitary over those radixes;
    - `CircuitGate(circuit)` wraps a whole sub-circuit as one block;
    - `OtherGate` stands for every gate of any other class.
  */
  datatype Gate =
    | ConstantUnitaryGate(utry: Unitary, radixes: seq<nat>)
    | VariableUnitaryGate(numQudits: nat, radixes: seq<nat>)
    | CircuitGate(circuit: Circuit)
    | OtherGate(name: string, radixes: seq<nat>)
  {
    function Kind(): GateKind {
      match this
      case ConstantUnitaryGate(_, _) => ConstantUnitaryKind
      case VariableUnitaryGate(_, _) => VariableUnitaryKind
      case CircuitGate(_) => CircuitGateKind
      case OtherGate(name, _) => OtherKind(name)
    }

    /** The per-qudit level counts the gate acts on. */
    function Radixes(): seq<nat> {
      match this
      case CircuitGate(c) => c.radixes
      case _ => radixes
    }

    /** The number of qudits the gate acts on. */
    function NumQudits(): nat {
      match this
      case VariableUnitaryGate(n, _) => n
      case CircuitGate(c) => |c.radixes|
      case _ => |radixes|
    }
  }

  /** A gate placed on the qudits `location` with parameter vector `params`. */
  datatype Operation = Operation(gate: Gate, location: seq<nat>, params: seq<real>)
  {
    function Radixes(): seq<nat> {
      gate.Radixes()
    }

    function NumQudits(): nat {
      gate.NumQudits()
    }
  }

  /** One element of the cycle-major traversal of a circuit. */
  datatype CycleOp = CycleOp(cycle: nat, op: Operation)

  /**
    A circuit over qudits with the given radixes, as the sequence of
    `(cycle, operation)` pairs its traversal yields.
  */
  datatype Circuit = Circuit(radixes: seq<nat>, ops: seq<CycleOp>)

  /** The address of a single operation: its cycle and one qudit of its location. */
  datatype CircuitPoint = CircuitPoint(cycle: nat, qudit: nat)

  /** The errors the modelled code can raise. */
  datatype Error =
    | ValueError(message: string)
    | IndexError
    | NotFound
    | LocationConflict

  /**
    The numerical collaborators, left uninterpreted.
    - `dim(u)`: the row count of `u`;
    - `variableUnitary(radixes, params)`: the matrix of a variable unitary gate;
    - `variableParams(u)`: the parameter vector extracted from `u`;
    - `circuitGateUnitary(c, params)`: the matrix of a circuit gate;
    - `otherUnitary(name, radixes, params)`: the matrix of any other gate;
    - `identity(radixes)`, `embed(u, location, radixes)`, `mul(a, b)`: what the
      whole-circuit unitary is composed from.
  */
  datatype Numerics = Numerics(
    dim: Unitary -> nat,
    variableUnitary: (seq<nat>, seq<real>) -> Unitary,
    variableParams: Unitary -> seq<real>,
    circuitGateUnitary: (Circuit, seq<real>) -> Unitary,
    otherUnitary: (string, seq<nat>, seq<real>) -> Unitary,
    identity: seq<nat> -> Unitary,
    embed: (Unitary, seq<nat>, seq<nat>) -> Unitary,
    mul: (Unitary, Unitary) -> Unitary)

  /** The dimension of the Hilbert space over qudits with these radixes. */
  function Dim(radixes: seq<nat>): nat {
    if radixes == [] then 1 else radixes[0] * Dim(radixes[1..])
  }

  /** The matrix gate `g` realises under parameters `params`. */
  function GateUnitary(num: Numerics, g: Gate, params: seq<real>): Unitary {
    match g
    case ConstantUnitaryGate(u, _) => u
    case VariableUnitaryGate(_, rs) => num.variableUnitary(rs, params)
    case CircuitGate(c) => num.circuitGateUnitary(c, params)
    case OtherGate(name, rs) => num.otherUnitary(name, rs, params)
  }

  /** The matrix an operation realises: its gate under its own parameters. */
  function OpUnitary(num: Numerics, op: Operation): Unitary {
    GateUnitary(num, op.gate, op.params)
  }

  /** An operation's matrix has the size its radixes call for. */
  ghost predicate DimensionsAgree(num: Numerics, op: Operation) {
    num.dim(OpUnitary(num, op)) == Dim(op.Radixes())
  }

  /**
    The assumption the conversion to variable gates rests on: for every
    unitary of the right size, the variable unitary gate over those radixes,
    given the parameters extracted from it, realises exactly that unitary.
    In bqskit's floating-point code this holds only up to rounding.
  */
  ghost predicate VariableParamsRealise(num: Numerics) {
    forall rs: seq<nat>, u: Unitary ::
      num.dim(u) == Dim(rs) ==> num.variableUnitary(rs, num.variableParams(u)) == u
  }
}
