# BlockConversionPass, modelled in Dafny

This project models bqskit's `BlockConversionPass`. The pass is a circuit
rewrite that converts "blocks" into one target form. A block is an
operation whose gate is a `ConstantUnitaryGate`, a `VariableUnitaryGate` or a
`CircuitGate`. The target form is either variable unitary gates or constant
unitary gates.

The model has two parts:

- **Configuration.** The constructor maps the target string and the three
  flags to a target gate kind and a list of origin gate kinds. The
  conversion function is selected by the target.
- **Rewrite.** `run` walks the circuit's `(cycle, operation)` pairs. Each
  operation whose gate kind is an origin is replaced at point
  `(cycle, location[0])` by a target-kind gate over the same location.

Files:

- `ir.dfy` (module `IR`): gates, operations, circuits, circuit points and
  errors. Unitaries are an opaque type. The numerical routines are
  function-valued fields of a `Numerics` record supplied by the caller:
  a gate's matrix, `VariableUnitaryGate.get_params`, matrix dimension, and
  embed/multiply/identity for the whole-circuit unitary.
- `circuits.dfy` (module `Circuits`): `replace_gate` on the
  `(cycle, operation)` sequence, well-formedness, and the whole-circuit
  unitary as the product `U_last * ... * U_0`.
- `conversion.dfy` (module `Conversion`): the constructor, the two
  conversion functions, the pure rewrite `Convert`, and the method `Run`.
  `Run` replays bqskit's loop against the live circuit and is proved
  equal to `Convert` on well-formed circuits.
- `properties.dfy` (module `ConversionProperties`): ignored flags, frame
  conditions, idempotence, the post-condition of a default run, unitary
  preservation, and the two test scenarios, including the tests' comparison
  with the sub-circuit's unitary.
- `wrappers.dfy` (module `Wrappers`): `Option` and `Result`.

A well-formed circuit has a non-empty location for every operation, and no
two operations of the same cycle share a qudit. An origin operation with an
empty location makes `op.location[0]` raise, so `Run` returns `IndexError`
for it. A non-origin operation with an empty location is never indexed and
passes through unchanged.

The statement that a variable gate realises the unitary its parameters were
extracted from cannot be proved about floating-point code. It is the
hypothesis `IR.VariableParamsRealise`, restricted to unitaries whose
dimension is the product of the radixes. Every lemma that relies on it names
it in its `requires`.

## Model

| member | source | states |
|---|---|---|
| `Conversion.NewBlockConversionPass` | bqskit/passes/util/conversion.py:31-89 | The result is an error exactly when the target is neither `'variable'` nor `'constant'`, and that error is the `ValueError` with bqskit's message. For `'variable'`, the target kind is VariableUnitary, ConstantUnitary is an origin iff `convert_constant`, and VariableUnitary is never an origin. For `'constant'` it is the mirror image. CircuitGate is an origin iff `convert_circuitgates`. The target kind is never an origin, and only block kinds are origins. |
| `ConversionProperties.IgnoredFlags` | bqskit/passes/util/conversion.py:74-84 | `convert_variable` has no effect when the target is `'variable'`, and `convert_constant` has none when it is `'constant'`. |
| `Conversion.DefaultBlockConversionPass` | bqskit/passes/util/conversion.py:31-37 | With the default flags (all three `True`), a pass is built exactly for `'variable'` and `'constant'`. Every block kind other than the target kind is an origin, and the target kind is not. |
| `Conversion.ConvertOpToConstant` | bqskit/passes/util/conversion.py:105-110 | The result is a ConstantUnitary gate over the op's radixes with an empty parameter vector, and it realises exactly the op's unitary. |
| `Conversion.ConvertOpToVariable` | bqskit/passes/util/conversion.py:112-120 | The result is a VariableUnitary gate with the op's qudit count and radixes. Its parameters are `get_params` of the op's unitary. Under the realisation hypothesis, when dimensions agree, it realises the op's unitary. |
| `Conversion.ConversionOperation` | bqskit/passes/util/conversion.py:74-84 | The conversion the target selects yields a gate of the target kind over the op's radixes. It preserves the op's unitary for the constant target unconditionally, and for the variable target under the hypothesis. |
| `Conversion.ConvertCycleOp` | bqskit/passes/util/conversion.py:99-103 | An element keeps its cycle and location. A non-origin element is returned unchanged. An origin element becomes the target kind with the same radixes and the same realised unitary (conditions as above). |
| `Conversion.ConvertOps` | bqskit/passes/util/conversion.py:99-103 | The traversal rewrite keeps the number and order of elements, and treats each element independently of the others. |
| `Conversion.Convert` | bqskit/passes/util/conversion.py:99-103 | The rewritten circuit has the same radixes and the same number of operations, with every cycle and location kept. Operations of non-origin kinds are unchanged. Operations of origin kinds become the target kind over the same radixes. |
| `Conversion.Run` | bqskit/passes/util/conversion.py:91-103 | Replacing in place at point `(cycle, location[0])`, while walking the live circuit, yields exactly `Convert` on every well-formed circuit. Any failure is `IndexError` (an origin operation with an empty location) or a `replace_gate` error. |
| `Circuits.FindAnchor` | bqskit/passes/util/conversion.py:102-103 | Finds the first traversal element that the point addresses (same cycle, qudit in location). Returns `None` iff there is none. |
| `Circuits.ReplaceGate` | bqskit/passes/util/conversion.py:102-103 | The replace that `run` calls. It is `NotFound` iff nothing is anchored at the point. It is `LocationConflict` iff the first anchored operation exists and another operation of the point's cycle meets the new location. It fails in no other way, so it succeeds exactly when an anchor exists and nothing conflicts. On success it keeps the radixes and the length, and turns exactly the first anchored element into the new operation in the point's cycle. |
| `Circuits.ReplaceAtOwnAnchor` | bqskit/passes/util/conversion.py:102-103 | In a well-formed circuit, replacing through a point on an operation's own qudit, with the same location, succeeds and changes that position only. |
| `Circuits.CircuitUnitary` | tests/passes/util/test_block_conversion.py:13-20 | `Circuit.get_unitary` as the tests compare it: the empty circuit realises the identity over its radixes. |
| `Circuits.CircuitUnitaryAppend` | tests/passes/util/test_block_conversion.py:13-20 | Appending an operation multiplies the circuit's unitary on the left by that operation's matrix embedded at its location, so later operations act after earlier ones. |
| `ConversionProperties.ChangedExactlyOrigins` | bqskit/passes/util/conversion.py:99-103 | For a pass whose target is not an origin, an operation changes iff its gate kind is an origin. |
| `ConversionProperties.NothingLeftToConvert` | bqskit/passes/util/conversion.py:88-103 | After a run, no operation has an origin kind. |
| `ConversionProperties.ConvertIdempotent` | bqskit/passes/util/conversion.py:74-103 | For a pass whose target is not an origin, a second run changes nothing. |
| `ConversionProperties.DefaultRunConvertsAllBlocks` | tests/passes/util/test_block_conversion.py:18-23 | A default-flag pass run over a circuit made only of blocks leaves every operation with the target kind. |
| `ConversionProperties.ConvertPreservesOpUnitaries` | bqskit/passes/util/conversion.py:105-120 | Every converted operation realises the same matrix as before. This holds always for the constant target, and for the variable target under the realisation hypothesis, given matching dimensions for the operations it converts. |
| `ConversionProperties.ConvertPreservesUnitary` | bqskit/passes/util/conversion.py:99-120 | Under the same conditions, the whole-circuit unitary is unchanged. |
| `ConversionProperties.ConstantThenVariableRoundTrip` | bqskit/passes/util/conversion.py:105-120 | Converting every block to constant and then to variable reproduces the original whole-circuit unitary. |
| `ConversionProperties.CircuitGateToVariableScenario` | tests/passes/util/test_block_conversion.py:12-23 | A 3-qudit circuit holding one circuit gate on `[0, 1, 2]` ends as one `VariableUnitaryGate(3, radixes)` on the same qudits and cycle, with the same whole-circuit unitary. |
| `ConversionProperties.CircuitGateToConstantScenario` | tests/passes/util/test_block_conversion.py:26-37 | The same circuit under `'constant'` ends as one ConstantUnitary gate holding the circuit gate's matrix, with no parameters and the same whole-circuit unitary. |
| `ConversionProperties.CircuitGateToVariableMatchesSubCircuit` | tests/passes/util/test_block_conversion.py:12-22 | When the circuit gate realises its sub-circuit's unitary, and embedding over all three qudits after the identity is exact, the circuit converted to a variable block has the sub-circuit's unitary (the test's `in_utry == out_utry`). |
| `ConversionProperties.CircuitGateToConstantMatchesSubCircuit` | tests/passes/util/test_block_conversion.py:26-36 | Under the same two conditions, the circuit converted to a constant block has the sub-circuit's unitary. |

## Left out

- Logging (`_logger.debug`) and the `async` scheduling of `run`: orchestration with no effect on the circuit.
- The floating-point linear algebra behind `op.get_unitary()`, `VariableUnitaryGate.get_params`, the variable gate's matrix and circuit-gate matrices. These are uninterpreted function fields of `IR.Numerics`.
- `Circuit.operations_with_cycles`, `Circuit.replace_gate` and `Circuit.get_unitary` are collaborators of the pass, modelled minimally:
  - the traversal is a sequence of `(cycle, operation)` pairs;
  - the replace finds the first operation anchored at the point, fails with `NotFound` or `LocationConflict`, and otherwise replaces it in place;
  - the unitary is a fold of abstract embed/multiply.
- Conversion.ConvertOpToVariable: states realisation of the op's unitary only under the hypothesis `VariableParamsRealise`. bqskit gets this from numerical code and only up to rounding.
- The tests mark their unitary comparisons as failing, and the code of the pass does not explain why: `convert_op_to_constant` copies `op.get_unitary()` unchanged, yet the constant test carries the same comment. Under its hypotheses the model predicts that both comparisons hold. The model and the tests can diverge in three places:
  - `ConversionProperties.CircuitGateToVariableMatchesSubCircuit` and `ConversionProperties.CircuitGateToConstantMatchesSubCircuit` assume that the circuit gate, under the parameters the operation carries, realises the sub-circuit's unitary. The tests append the gate without parameters, and which parameters the operation then holds is decided outside the pass.
  - Both lemmas assume that embedding a matrix over all three qudits, after the identity, is exact (`WholeCircuitEmbedExact`).
  - Floating-point rounding, which exact equality in the tests does not tolerate.
- Conversion.Run: a failure midway leaves the earlier replacements in the circuit, because the loop replaces one operation at a time in place; Run returns only the error, not that partly converted circuit.
- `isinstance` with subclasses: each gate has exactly one kind here. Subclasses of the three block classes are not modelled.
- Operation validation inside gate constructors and `replace_gate` (parameter counts, radix and qudit bounds) is not modelled.
