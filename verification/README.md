# Fors verification models

Fors is a systems language with its own checker, assembler, reference tools and benchmarks. This
project models the parts of it whose correctness is a mathematical claim, and proves the claims:

- **Pattern matching** (`Patterns`, `Usefulness`, `Exactness`, `Gaps`, `FalseAlarms`, `Witnesses`,
  `CheckMatch`, `Steps`, `IntegerMatches`, `VariantMatches`): the usefulness algorithm behind
  exhaustiveness and unreachable-arm errors, with its step budget, which counts the rows of every
  matrix formed. It is proved terminating, sound and right about what its witnesses leave uncovered;
  that a useful answer leaves some value is proved exactly where it holds, since the algorithm takes
  every integer type for infinite and every variant for inhabited. The report on a `match` is stated under first-match semantics.
- **The AArch64 assembler** (`Fields`, `Bitmask`, `Operands`, `Instructions`, `Layouts`, `Encoder`,
  `RoundTrip`, `EncodingExact`, `Diagrams`, `Aliases`, `Manual`, `Legality`, `GoldenWords`): every
  instruction has the word of its encoding diagram in the Arm Architecture Reference Manual
  (DDI 0487); the logical-immediate search inverts the manual's decoding; exactly the words whose
  offsets were made for their form are read back by a decoder, and exactly those whose operands
  numbered 31 stand in fitting places with the registers that were meant; the constructors are
  compared with the manual's legal operands; shift, extend and conditional aliases compute what their
  names say under the manual's meaning of `UBFM`, `SBFM` and the conditional selects. `GoldenWords`
  holds the fixed bits of every layout against one word of the repository's golden file.
- **The expression ladder** (`ExprGrammar`, `ExprParser`, `ExprRecognizer`, `ExprGenerator`): the
  reference recogniser's cursor methods accept exactly what the grammar derives, derivations are
  unique, and everything the fuzzer's generator prints is accepted.
- **The deterministic reduction** (`Reduction`): the lane and block tree has one shape per length,
  spelled out block by block and lane by lane, and equals an ordinary fold, over a fixed arrangement if
  the operation is only associative.
- **Crash minimisation** (`Tokenizer`, `DeltaDebug`): delta debugging keeps the failure and ends
  1-minimal, after quadratically many calls at most; it rests on a lossless tokenizer.
- **Scoping of jumps in bodies** (`BodyScopes`): three counters kept while walking a body give the
  verdicts of a scope-chain reading of `break`, `continue`, `return` and `raise`.
- **Incremental re-signing** (`Resign`): patching bytes of a signed Mach-O file and re-hashing only
  the touched pages ends as a full re-hash would.
- **Checker side structures** (`DepSet`, `PatternArena`): the dependency key, and the arena of
  decided patterns, which gives back the tree recorded in it.
- **The bandwidth kernel** (`Triad`): the start barrier and the block partition, over every
  interleaving of the threads. `Naturals` and `Quotients` hold shared arithmetic.

Code that updates state in the repository is modelled by classes and loops with the same fields and
branches; each such method is proved against a function of its inputs or of the old state, and the
properties are proved of that function.

`dafny verify dfyconfig.toml` checks the whole project.

## What the proofs found

- The exhaustiveness check takes every integer type for infinite and every variant for inhabited. A
  match that lists all values of an integer type, such as the 256 of `u8`, is reported as not
  exhaustive although nothing falls through (`IntegerMatches.AllListedIsReported`); so is a match
  that leaves out only a variant that holds `never`, and an arm for such a variant is not reported
  although no value chooses it (`VariantMatches.NeverIsReported`). That an arm reported unreachable is
  never chosen, and that a match not reported handles every value, needs no condition.
- A report is wrong exactly if a query of it is a false alarm (`CheckMatch.MissingRightIff`,
  `CheckMatch.UnreachableRightIff`): it found its answer at an exhausted column and nowhere else
  (`FalseAlarms.FalseAlarmIff`). A column is exhausted if its type is `never`, if all integers of its
  type head a row, or if only constructors without values head none (`FalseAlarms.ExhaustedIff`). A
  query that meets no such column is answered rightly (`CheckMatch.ClearReportIsRight`), for instance
  if every type in play has values, and every integer type more than there are arms
  (`CheckMatch.MissingIsExact`, `CheckMatch.UnreachableIsExact`). Meeting one is not enough to go
  wrong (`IntegerMatches.ExhaustedYetRight`). On one integer type, and on an enum matched variant by
  variant, the condition is the plain one (`IntegerMatches.IntegerMatchExact`,
  `VariantMatches.VariantMatchExact`, `VariantMatches.VariantArmExact`).
- The step budget is exceeded from 512 arms on by a match of different integer literals and no wildcard
  (`Steps.LiteralMatchGivesUp`). The specification's account of the count (docs/spec/09-types.md:902-909)
  specialises by every constructor that occurs and forms the default matrix besides; the code, and the
  model with it, specialises by the query's own constructor, or by those of a complete signature, and
  otherwise forms the default matrix alone (`Steps.ChargesAreRows`).
- `missing_literal` tries integers from zero up, whatever the type. A match over `i8` that lists 0 to
  127 is rightly reported, but with the witness 128, which is no `i8`
  (`IntegerMatches.WitnessBeyondRange`); and a float or function column also gets an integer. The
  literal is a value of its type exactly if the type has strings, or an integer from zero up that
  heads no row (`Exactness.MissingLiteralTyped`); a whole witness stands for some value exactly if
  every literal it needed could be named so, and every constructor it was given has values
  (`CheckMatch.MissingWitnessIsReal`).
- A `grain` expression is judged after the loop depth was raised, so an early exit in it is judged
  as if it stood inside the loop: a `break` in it can leave an accepted deferred body
  (`BodyScopes.GrainEscapes`), exactly if it stands in a `grain` outside the closures and loop bodies
  of the deferred body (`BodyScopes.AcceptedDeferStays`). `BodyScopes.VerdictsRightIff` says for
  which bodies a refusal is missing, which is not the same (`BodyScopes.GrainInClosureStays`).
- Neither the instruction constructors nor the encoder check that a branch offset was made for the
  width of its form, or a scaled offset for the access size of its instruction.
  `EncodingExact.RoundTripExact` gives the exact condition under which a word still reads back; a
  19-bit offset in `TBZ`/`TBNZ` spills into the bit number (`Legality.WideOffsetSpills`).
- Number 31 names the stack pointer or the zero register by the place it stands in. Many constructors
  accept the other one, and the word then takes a register the instruction does not name:
  `AND`/`ORR`/`EOR` immediate with a target of ZR (`Legality.AndWritesSp`); the extended `ADD`/`SUB`
  with a source of ZR, a target of ZR without flags or of SP with flags; SP in `MOVZ`/`MOVN`/`MOVK`,
  `MUL`, `SMULH`, `UMULH`, `ADR`, `ADRP`, `CBZ`, `CBNZ`, `TBZ`, `TBNZ`, `BR`, `BLR`, `RET`, in `FMOV`
  and the conversions between register files, as a transferred register and as the offset register
  of a load or store; and ZR as the base of a pair or of a floating-point load or store
  (the `Legality.Unguarded` lemmas). The other forms are guarded (`Legality.GuardedMeans`), and the
  condition is exact for all (`Legality.MeantExact`).
- A `RegShift` made for 64 bits is accepted on 32-bit registers; apart from those of `udf`, these are
  exactly the readable words the constructors produce that are UNDEFINED (`Legality.UndefinedIff`,
  `Legality.WideShiftIsUndefined`).
- The constructors refuse two kinds of legal operands: `UXTX` and `SXTX` of a W register in a 32-bit
  sum, and write-back to SP beside a transfer of ZR (`Legality.LegalIff`).
- `patch_and_resign` meets an unsupported hash type only after the patch has been written
  (`Resign.File.PatchAndResign`).
- The mutation tokenizer advances at every position except at a non-ASCII letter or digit, where it
  makes no progress (`Tokenizer.NextToken`); the repository says its inputs hold none.

## Model

| member | source | states |
|---|---|---|
| `Usefulness.FirstMissing` | crates/fors-check/src/exhaust.rs:207-211 | a constructor of a complete signature that heads no row; none only when all of them head one |
| `Usefulness.MissingIsFirst` | crates/fors-check/src/exhaust.rs:207-211 | it is the first such constructor |
| `Usefulness.Plain` | crates/fors-check/src/exhaust.rs:176-256 | the algorithm without its budget, terminating on every matrix: constructor nodes of rows and query, then columns, fall lexicographically; a witness has one entry per column |
| `Usefulness.SpecializedFacts` | crates/fors-check/src/exhaust.rs:452-469 | specialising keeps the matrix well typed for the component columns, never adds constructor nodes, and loses some when the constructor heads a row |
| `Usefulness.SpecializeQuery` | crates/fors-check/src/exhaust.rs:194-234 | the specialised query is well formed and strictly smaller, also for a wildcard once the constructor heads a row |
| `Usefulness.DefaultQuery` | crates/fors-check/src/exhaust.rs:235-253 | the default query is well formed over one column less and no larger |
| `Usefulness.SpecializedCovers` | crates/fors-check/src/exhaust.rs:452-469 | the specialised rows cover the components exactly when the rows cover the value built from them |
| `Usefulness.DefaultCovers` | crates/fors-check/src/exhaust.rs:474-480 | for a first value whose constructor heads no row, the default rows cover the rest exactly when the rows cover the whole |
| `Usefulness.DefaultSound` | crates/fors-check/src/exhaust.rs:474-480 | what the default rows cover, the rows cover with any first value |
| `Exactness.CandidateInjective` | crates/fors-check/src/exhaust.rs:357-385 | different candidate numbers are different literals, as integers and as the texts of strings |
| `Exactness.HeadedCtors` | crates/fors-check/src/exhaust.rs:357-385 | pigeonhole: different constructors that head rows need as many rows |
| `Exactness.MissingLiteralFound` | crates/fors-check/src/exhaust.rs:357-385 | the search over one more candidate than rows always ends at the first literal that heads no row |
| `Exactness.MissingLiteralTyped` | crates/fors-check/src/exhaust.rs:357-385 | the named literal is a value of the type if and only if the type has strings, or an integer from zero up that heads no row |
| `Exactness.NotUsefulIsCovered` | crates/fors-check/src/exhaust.rs:176-256 | soundness: if the query is not useful, every typed value tuple it matches is matched by a row |
| `Exactness.WitnessIsUncovered` | crates/fors-check/src/exhaust.rs:176-256 | every instance of the witness is matched by the query and by no row |
| `Exactness.EachFound` | crates/fors-check/src/exhaust.rs:211-234 | the witness of a complete signature is that of its first constructor that has one |
| `Exactness.FewRowsNameable` | crates/fors-check/src/exhaust.rs:357-385 | at most as many rows as the largest integer of the type leave one to name |
| `Gaps.HasValueIff` | docs/spec/09-types.md:107-109 | a type has values if and only if a constructor of it has values for all its components, or it has values no constructor tests |
| `Gaps.PopulatedIff` | docs/spec/09-types.md:235-246 | for declarations in which no type contains itself, whether a type has values can be read off them |
| `Gaps.NoGapIsCovered` | crates/fors-check/src/exhaust.rs:176-256 | without a gap, every typed value tuple the query matches is matched by a row |
| `Gaps.GapValue` | crates/fors-check/src/exhaust.rs:176-256 | a gap holds a typed value tuple matched by the query and by no row |
| `Gaps.GapIsExact` | crates/fors-check/src/exhaust.rs:176-256 | the algorithm that knows integer ranges and types without values finds a gap if and only if some typed value tuple is matched by the query and by no row |
| `FalseAlarms.ExhaustedIff` | crates/fors-check/src/exhaust.rs:207-253 | a column left for the default rows with no value left is of type never, an integer column all of whose values head a row, or one of which only constructors without values head none |
| `FalseAlarms.FalseAlarmIff` | crates/fors-check/src/exhaust.rs:176-256 | an answer is a false alarm, found at an exhausted column and nowhere else, if and only if the query is useful without a gap |
| `FalseAlarms.AnswerRightIff` | crates/fors-check/src/exhaust.rs:176-256 | that some typed value tuple is matched by the query and by no row is answered rightly if and only if the answer is no false alarm |
| `FalseAlarms.ClearIsRight` | crates/fors-check/src/exhaust.rs:207-253 | a query that meets no exhausted column is no false alarm |
| `FalseAlarms.UsefulnessIsExact` | crates/fors-check/src/exhaust.rs:176-256 | for a query that meets no exhausted column: useful if and only if some typed value tuple is matched by the query and by no row |
| `FalseAlarms.FewRowsClear` | crates/fors-check/src/exhaust.rs:207-253 | with values in every type in play, and fewer rows than any integer type in play has values, no exhausted column is met |
| `Witnesses.AnysNameValue` | crates/fors-check/src/exhaust.rs:235-243 | a constructor with nothing said of its components stands for a value if and only if its components have values |
| `Witnesses.CombineTyped` | crates/fors-check/src/exhaust.rs:483-488 | a combined witness stands for a typed value tuple if and only if its parts do |
| `Witnesses.WitnessTypedIff` | crates/fors-check/src/exhaust.rs:176-256 | the witness stands for a typed value tuple if and only if every literal it needed could be named and every constructor it was given has values |
| `Witnesses.FewRowsName` | crates/fors-check/src/exhaust.rs:357-385 | with values in every type in play, literals in every one without a signature, and at most as many rows as the largest integer of each, both hold |
| `CheckMatch.Budget.Charge` | crates/fors-check/src/exhaust.rs:47-51 | adds the charge and answers whether the total is within the limit |
| `CheckMatch.CountStops` | crates/fors-check/src/exhaust.rs:35-51 | counting charge by charge ends beyond the limit if and only if their total does, and at the total otherwise |
| `CheckMatch.CountOn` | crates/fors-check/src/exhaust.rs:35-51 | counting through two runs of charges is counting through the second from where the first ended, if it ended |
| `CheckMatch.Specialize` | crates/fors-check/src/exhaust.rs:452-469 | the loop that pushes rows builds the specialised matrix, in row order |
| `CheckMatch.FindLiteral` | crates/fors-check/src/exhaust.rs:357-385 | the candidate loop finds the missing literal |
| `CheckMatch.Useful` | crates/fors-check/src/exhaust.rs:176-256 | aborts exactly when the plain charges together exceed what is left, leaving the count at the first charge beyond the limit, and otherwise gives the plain verdict and witness at exactly the plain cost |
| `CheckMatch.UsefulEach` | crates/fors-check/src/exhaust.rs:211-234 | the loop over a complete signature keeps the first witness found and charges for every constructor, within the budget |
| `CheckMatch.CheckMatch` | crates/fors-check/src/exhaust.rs:77-155 | silent on untyped scrutinees and empty matches; gives up exactly when all queries together cost more than 256 steps a node, at the first charge beyond that; otherwise reports the plain answers and their cost |
| `Steps.ChargesAreRows` | crates/fors-check/src/exhaust.rs:176-256 | the charges of a query are the row counts of the matrices it forms, in order: its own; under its constructor, or for a wildcard under every constructor of a signature all of which head rows, and past the column otherwise; and so on below |
| `Steps.StepsAreRows` | crates/fors-check/src/exhaust.rs:77-155 | the charges of a check are the row counts of all matrices formed for all its queries |
| `Steps.LiteralCost` | crates/fors-check/src/exhaust.rs:194-253 | among different integer literals the query of an arm costs one step for each arm before it |
| `Steps.LiteralMatchGivesUp` | crates/fors-check/src/exhaust.rs:29-51 | a match of n different integer literals costs n(n+1)/2 steps, which at one node an arm is beyond the limit if and only if n is at least 512 |
| `CheckMatch.DeadArmIsShadowed` | crates/fors-check/src/exhaust.rs:92-104 | a value matched by an arm reported unreachable is matched by an earlier arm |
| `CheckMatch.DeletingUnreachableArms` | crates/fors-check/src/exhaust.rs:92-104 | deleting every arm reported unreachable changes the chosen arm of no value |
| `CheckMatch.ExhaustiveMeans` | crates/fors-check/src/exhaust.rs:105-154 | without a missing witness every value of the type is handled; with one, none of its instances is |
| `CheckMatch.ArmIffGap` | crates/fors-check/src/exhaust.rs:92-104 | an arm is chosen by some value of the type if and only if the arms before it leave it a gap |
| `CheckMatch.FallsThroughIffGap` | crates/fors-check/src/exhaust.rs:105-154 | some value of the type falls through if and only if the arms leave the wildcard a gap |
| `CheckMatch.UnreachableRightIff` | crates/fors-check/src/exhaust.rs:92-104 | the report on an arm is right if and only if the arm is no false alarm |
| `CheckMatch.MissingRightIff` | crates/fors-check/src/exhaust.rs:105-154 | the report on values falling through is right if and only if the wildcard query is no false alarm |
| `CheckMatch.ClearReportIsRight` | crates/fors-check/src/exhaust.rs:105-154 | if the wildcard query meets no exhausted column, a witness is reported if and only if some value of the type falls through |
| `CheckMatch.UnreachableIsExact` | crates/fors-check/src/exhaust.rs:92-104 | with values in every type in play and fewer arms before it than any integer type in play has values, an arm is reported unreachable if and only if no value of the type chooses it |
| `CheckMatch.MissingIsExact` | crates/fors-check/src/exhaust.rs:105-154 | with values in every type in play and fewer arms than any integer type in play has values, a witness is reported if and only if some value of the type falls through |
| `CheckMatch.MissingWitnessIsReal` | crates/fors-check/src/exhaust.rs:105-154 | the reported witness stands for some value of the type if and only if every literal it needed could be named and every constructor it was given has values |
| `IntegerMatches.ReportedIff` | crates/fors-check/src/exhaust.rs:105-154 | on an integer type a witness is reported if and only if no arm is a wildcard |
| `IntegerMatches.FallsThroughIff` | crates/fors-check/src/exhaust.rs:105-154 | some integer falls through if and only if no arm is a wildcard and some integer in range is not listed |
| `IntegerMatches.IntegerMatchExact` | crates/fors-check/src/exhaust.rs:105-154 | on an integer type the report is right if and only if the match has a wildcard or leaves an integer in range unlisted |
| `IntegerMatches.AllListedIsReported` | crates/fors-check/src/exhaust.rs:244-253 | a match listing every integer of its type is reported although every value is handled |
| `IntegerMatches.WitnessBeyondRange` | crates/fors-check/src/exhaust.rs:357-385 | a match listing a signed type from zero up is reported with the integer above the range, while -1 is uncovered |
| `IntegerMatches.ExhaustedYetRight` | crates/fors-check/src/exhaust.rs:207-253 | a match on pairs that lists every integer, but one of them with true only, meets an exhausted column and is rightly reported |
| `VariantMatches.FallsThroughIff` | crates/fors-check/src/exhaust.rs:105-154 | on an enum matched variant by variant, some value falls through if and only if some variant with values is not matched |
| `VariantMatches.ReportedIff` | crates/fors-check/src/exhaust.rs:105-154 | a witness is reported if and only if some variant is not matched |
| `VariantMatches.VariantMatchExact` | crates/fors-check/src/exhaust.rs:207-243 | the report on values falling through is right if and only if every variant is matched, or one with values is not |
| `VariantMatches.VariantArmExact` | crates/fors-check/src/exhaust.rs:92-104 | an arm is reported if and only if its variant was matched before; this is right if and only if it was, or the variant has values |
| `VariantMatches.NeverIsReported` | crates/fors-check/src/exhaust.rs:207-243 | of an enum ok(i32), bad(never): matching ok alone handles every value and is reported; an arm for bad is not reported and never chosen |
| `CheckMatch.DeadArmIsNotChosen` | crates/fors-check/src/exhaust.rs:92-104 | no value chooses an arm found not useful |
| `Bitmask.HighestSetBit` | crates/fors-asm/src/bitmask.rs:24-33 | the position of the top bit: the element size it gives brackets the seven-bit field |
| `Bitmask.Replicate` | crates/fors-asm/src/bitmask.rs:70-82 | doubling copies of an element fill the register with the element repeated |
| `Bitmask.DecodeBitmask` | crates/fors-asm/src/bitmask.rs:18-49 | decodes the three fields as the specification function does, refusing what it refuses |
| `Bitmask.DecodeClosedForm` | crates/fors-asm/src/bitmask.rs:18-82 | decodable triples characterised; each value is, bit by bit, a rotated run of ones repeated per element |
| `Bitmask.PatternInjective` | crates/fors-asm/src/bitmask.rs:18-82 | equal patterns have the same element size, run length and rotation |
| `Bitmask.DecodeInjective` | crates/fors-asm/src/bitmask.rs:18-82 | two decodable triples give the same value if and only if they agree on N, imms, and immr modulo the element size |
| `Bitmask.DecodeNeverUniform` | crates/fors-asm/src/bitmask.rs:18-82 | all zeros and all ones are never decoded |
| `Bitmask.EncodeBitmask` | crates/fors-asm/src/bitmask.rs:90-111 | finds a triple that decodes to the value with immr below the element size; fails only if no triple decodes to it |
| `Bitmask.FirstRotationIsLeast` | crates/fors-asm/src/bitmask.rs:90-111 | the first rotation the search meets is below the element size |
| `Bitmask.EncodingIsUnique` | crates/fors-asm/src/bitmask.rs:90-111 | only one triple with immr below the element size encodes a value |
| `Bitmask.EncodableCount` | crates/fors-asm/src/bitmask.rs:90-111 | 5334 values are encodable in 64 bits and 1302 in 32: the sum of e(e-1) over the element sizes |
| `Operands.Uimm12Exact` | crates/fors-asm/src/operand.rs:268-301 | accepts exactly the values 12 bits spell, shifted or not, and reads back as the value |
| `Operands.NewLogicalImm` | crates/fors-asm/src/operand.rs:330-346 | the fields kept decode to the value (truncated for 32 bits); an error means no fields do |
| `Operands.BranchOffsetExact` | crates/fors-asm/src/operand.rs:385-407 | an accepted byte offset reads back; every in-range offset is accepted as itself |
| `Operands.AdrOffsetExact` | crates/fors-asm/src/operand.rs:421-472 | the same for the 21-bit ADR and ADRP counts |
| `Operands.Simm9Exact` | crates/fors-asm/src/operand.rs:493-510 | the same for the nine-bit offset |
| `Operands.UScaledExact` | crates/fors-asm/src/operand.rs:528-555 | the same for the unsigned offset scaled by the access size |
| `Operands.SImm7Exact` | crates/fors-asm/src/operand.rs:571-598 | the same for the signed pair offset scaled by the access size |
| `Legality.MovWideLegal` | crates/fors-asm/src/inst.rs:569-583 | accepted and a target other than SP: exactly the legal moves |
| `Legality.AddSubImmLegal` | crates/fors-asm/src/inst.rs:611-635 | accepts exactly the legal sums with an immediate, number 31 included |
| `Legality.AddSubShiftedLegal` | crates/fors-asm/src/inst.rs:751-781 | accepted and a shift below the width: exactly the legal sums of a shifted register |
| `Legality.AddSubExtendedLegal` | crates/fors-asm/src/inst.rs:819-871 | accepted and 31 read as meant in target and source: exactly the legal sums of an extended register that extend no doubleword in 32 bits |
| `Legality.LogicalImmLegal` | crates/fors-asm/src/inst.rs:914-944 | accepted and, without flags, a target other than ZR: exactly the legal logical immediates |
| `Legality.LogicalShiftedLegal` | crates/fors-asm/src/inst.rs:1003-1026 | accepted and a shift below the width: exactly the legal logical operations on a shifted register |
| `Legality.BitfieldLegal` | crates/fors-asm/src/inst.rs:1030-1065 | accepts exactly the legal bitfield moves |
| `Legality.DataProc2Legal` | crates/fors-asm/src/inst.rs:1174-1183 | accepts exactly the legal two-source operations |
| `Legality.MaddMsubLegal` | crates/fors-asm/src/inst.rs:1211-1247 | accepts exactly the legal multiply-adds |
| `Legality.MulLegal` | crates/fors-asm/src/inst.rs:1250-1262 | accepted and no SP: exactly the legal products |
| `Legality.MulhLegal` | crates/fors-asm/src/inst.rs:1275-1290 | accepted and no SP: exactly the legal high products |
| `Legality.DataProc1Legal` | crates/fors-asm/src/inst.rs:1294-1302 | accepts exactly the legal one-source operations |
| `Legality.CondSelectLegal` | crates/fors-asm/src/inst.rs:1318-1341 | accepts exactly the legal conditional selects |
| `Legality.TestBranchLegal` | crates/fors-asm/src/inst.rs:1497-1516 | accepted and a register other than SP: exactly the legal bit tests |
| `Legality.LoadStoreLegal` | crates/fors-asm/src/inst.rs:1547-1581 | accepted and neither transferred nor offset register SP: exactly the legal loads and stores without write-back to SP beside ZR |
| `Legality.LoadStorePairLegal` | crates/fors-asm/src/inst.rs:1649-1683 | accepted, transferred registers other than SP and a base other than ZR: exactly the legal pairs without write-back to SP beside ZR |
| `Legality.LegalIff` | crates/fors-asm/src/inst.rs:566-1683 | legal and not refused needlessly, if and only if the constructors accept it, every 31 is read as meant and no shift is too wide |
| `Legality.GuardedMeans` | crates/fors-asm/src/inst.rs:599-635 | in guarded forms the constructors leave no 31 misread |
| `Legality.AndWritesSp` | crates/fors-asm/src/inst.rs:914-944 | two different instructions the constructor accepts, one naming ZR and one SP, have one word |
| `Legality.UnguardedSums` | crates/fors-asm/src/inst.rs:569-871 | moves and extended sums whose word takes another register than named |
| `Legality.UnguardedLogic` | crates/fors-asm/src/inst.rs:914-944 | the same for logical immediates without flags |
| `Legality.UnguardedProducts` | crates/fors-asm/src/inst.rs:1250-1290 | the same for products |
| `Legality.UnguardedBranches` | crates/fors-asm/src/inst.rs:1471-1516 | the same for compare and test branches |
| `Legality.UnguardedJumps` | crates/fors-asm/src/inst.rs:1518-1543 | the same for register branches |
| `Legality.UnguardedAddresses` | crates/fors-asm/src/inst.rs:1436-1452 | the same for PC-relative addresses |
| `Legality.UnguardedFloats` | crates/fors-asm/src/fp.rs:144-193 | the same for moves and conversions between register files |
| `Legality.UnguardedTransfers` | crates/fors-asm/src/inst.rs:1547-1581 | the same for loads and stores |
| `Legality.UnguardedPairs` | crates/fors-asm/src/inst.rs:1649-1683 | the same for pairs |
| `Legality.UnguardedFloatTransfers` | crates/fors-asm/src/fp.rs:195-221 | the same for floating-point loads and stores |
| `Legality.ShiftMadeForWidth` | crates/fors-asm/src/operand.rs:139-148 | a shift made for the width of the registers is never too wide for them |
| `Legality.MadeOperands` | crates/fors-asm/src/operand.rs:227-235 | an extend that was made has a legal amount, and an offset register is made exactly with a fitting width |
| `Legality.MeantExact` | crates/fors-asm/src/encode.rs:19-503 | a word reads back with the registers named if and only if its offsets were made for its form and every 31 is read as meant |
| `Legality.UndefinedIff` | crates/fors-asm/src/encode.rs:60-150 | a readable word is UNDEFINED if and only if it shifts 32-bit registers by 32 or more, or is that of udf |
| `Legality.WideShiftIsUndefined` | crates/fors-asm/src/inst.rs:751-781 | a sum of W registers with a shift of 40 made for 64 bits is accepted and UNDEFINED |
| `Legality.WideOffsetSpills` | crates/fors-asm/src/encode.rs:290-304 | a bit test with a 19-bit offset has the word of a test of another bit, and reads back as that |
| `Aliases.LslMeans` | crates/fors-asm/src/inst.rs:1080-1091 | LSL succeeds exactly for legal shifts and registers, computes the left shift for every register value, and its printed amount is the shift |
| `Aliases.LsrMeans` | crates/fors-asm/src/inst.rs:1094-1110 | LSR computes the logical right shift |
| `Aliases.AsrMeans` | crates/fors-asm/src/inst.rs:1113-1129 | ASR computes the arithmetic right shift |
| `Aliases.SignExtendsMean` | crates/fors-asm/src/inst.rs:1131-1137 | SXTB and SXTH sign-extend the low 8 and 16 bits |
| `Aliases.ZeroExtendsMean` | crates/fors-asm/src/inst.rs:1154-1170 | UXTB and UXTH are for 32-bit registers only and zero-extend |
| `Aliases.SxtwMeans` | crates/fors-asm/src/inst.rs:1144-1152 | SXTW takes a 32-bit source to a 64-bit target with its sign |
| `Aliases.InversionExact` | crates/fors-asm/src/operand.rs:65-67 | flipping the low bit negates a condition under every flag state, exactly for conditions other than AL and NV |
| `Aliases.CsetMeans` | crates/fors-asm/src/inst.rs:1364-1375 | CSET gives one if the condition holds and zero otherwise, and is refused exactly for AL, NV and SP |
| `Aliases.CsetmMeans` | crates/fors-asm/src/inst.rs:1377-1388 | CSETM gives all ones or zero |
| `Aliases.ConditionalsMean` | crates/fors-asm/src/inst.rs:1390-1432 | CINC, CINV and CNEG add one, invert or negate if the condition holds, and copy otherwise |
| `Aliases.IncrementAddsOne` | crates/fors-asm/src/inst.rs:1390-1400 | the increment of a register is addition of one modulo its width |
| `Aliases.NegateSubtracts` | crates/fors-asm/src/inst.rs:1414-1424 | the negation of a register is subtraction from zero modulo its width |
| `Aliases.ExtractBits` | crates/fors-asm/src/inst.rs:1080-1170 | UBFM and SBFM with immr at most imms, bit by bit, derived from the rotate-and-mask pseudocode |
| `Aliases.InsertBits` | crates/fors-asm/src/inst.rs:1080-1091 | UBFM with immr above imms, bit by bit |
| `RoundTrip.MovWideDecoded` | crates/fors-asm/src/encode.rs:21-39 | a word of this shape decodes to the operation and all its operands, whatever they are |
| `RoundTrip.AddSubImmDecoded` | crates/fors-asm/src/encode.rs:41-58 | a word of this shape decodes to the operation and all its operands, whatever they are |
| `RoundTrip.AddSubShiftedDecoded` | crates/fors-asm/src/encode.rs:60-79 | a word of this shape decodes to the operation and all its operands, whatever they are |
| `RoundTrip.AddSubExtendedDecoded` | crates/fors-asm/src/encode.rs:81-102 | a word of this shape decodes to the operation and all its operands, whatever they are |
| `RoundTrip.LogicalImmDecoded` | crates/fors-asm/src/encode.rs:104-121 | a word of this shape decodes to the operation and all its operands, whatever they are |
| `RoundTrip.LogicalShiftedDecoded` | crates/fors-asm/src/encode.rs:123-150 | a word of this shape decodes to the operation and all its operands, whatever they are |
| `RoundTrip.BitfieldDecoded` | crates/fors-asm/src/encode.rs:152-174 | a word of this shape decodes to the operation and all its operands, whatever they are |
| `RoundTrip.DataProc2Decoded` | crates/fors-asm/src/encode.rs:176-191 | a word of this shape decodes to the operation and all its operands, whatever they are |
| `RoundTrip.DataProc3Decoded` | crates/fors-asm/src/encode.rs:193-212 | a word of this shape decodes to the operation and all its operands, whatever they are |
| `RoundTrip.DataProc1Decoded` | crates/fors-asm/src/encode.rs:214-232 | a word of this shape decodes to the operation and all its operands, whatever they are |
| `RoundTrip.CondSelectDecoded` | crates/fors-asm/src/encode.rs:234-256 | a word of this shape decodes to the operation and all its operands, whatever they are |
| `RoundTrip.AdrDecoded` | crates/fors-asm/src/encode.rs:258-262 | a word of this shape decodes to the operation and all its operands, whatever they are |
| `RoundTrip.AdrpDecoded` | crates/fors-asm/src/encode.rs:264-267 | a word of this shape decodes to the operation and all its operands, whatever they are |
| `RoundTrip.BranchRegDecoded` | crates/fors-asm/src/encode.rs:306-306 | a word of this shape decodes to the operation and all its operands, whatever they are |
| `RoundTrip.BranchLinkRegDecoded` | crates/fors-asm/src/encode.rs:307-307 | a word of this shape decodes to the operation and all its operands, whatever they are |
| `RoundTrip.RetDecoded` | crates/fors-asm/src/encode.rs:308-308 | a word of this shape decodes to the operation and all its operands, whatever they are |
| `RoundTrip.FpDataProc1Decoded` | crates/fors-asm/src/encode.rs:350-365 | a word of this shape decodes to the operation and all its operands, whatever they are |
| `RoundTrip.FpConvertDecoded` | crates/fors-asm/src/encode.rs:367-381 | a word of this shape decodes to the operation and all its operands, whatever they are |
| `RoundTrip.FpDataProc2Decoded` | crates/fors-asm/src/encode.rs:383-399 | a word of this shape decodes to the operation and all its operands, whatever they are |
| `RoundTrip.FpCompareDecoded` | crates/fors-asm/src/encode.rs:401-409 | a word of this shape decodes to the operation and all its operands, whatever they are |
| `RoundTrip.FpCondSelectDecoded` | crates/fors-asm/src/encode.rs:411-421 | a word of this shape decodes to the operation and all its operands, whatever they are |
| `RoundTrip.FpImmMoveDecoded` | crates/fors-asm/src/encode.rs:423-432 | a word of this shape decodes to the operation and all its operands, whatever they are |
| `RoundTrip.FpToGpDecoded` | crates/fors-asm/src/encode.rs:434-443 | a word of this shape decodes to the operation and all its operands, whatever they are |
| `RoundTrip.GpToFpDecoded` | crates/fors-asm/src/encode.rs:445-454 | a word of this shape decodes to the operation and all its operands, whatever they are |
| `RoundTrip.IntToFpDecoded` | crates/fors-asm/src/encode.rs:456-478 | a word of this shape decodes to the operation and all its operands, whatever they are |
| `RoundTrip.FpToIntDecoded` | crates/fors-asm/src/encode.rs:456-478 | a word of this shape decodes to the operation and all its operands, whatever they are |
| `RoundTrip.FpMaddDecoded` | crates/fors-asm/src/encode.rs:480-488 | a word of this shape decodes to the operation and all its operands, whatever they are |
| `RoundTrip.ModeDecoded` | crates/fors-asm/src/encode.rs:505-564 | each addressing mode is told from the word and its offset or index register read back |
| `RoundTrip.GpDecoded` | crates/fors-asm/src/encode.rs:492-495 | size and opc fields give the load or store back |
| `RoundTrip.FpDecoded` | crates/fors-asm/src/encode.rs:497-503 | the same for floating-point registers |
| `RoundTrip.PairDecoded` | crates/fors-asm/src/encode.rs:318-341 | a pair word gives direction, width, both registers, base, signed scaled offset and index mode back |
| `RoundTrip.BranchDecoded` | crates/fors-asm/src/encode.rs:269-271 | B and BL words give the 26-bit offset back |
| `RoundTrip.BranchCondDecoded` | crates/fors-asm/src/encode.rs:273-275 | B.cond words give condition and 19-bit offset back |
| `RoundTrip.CompareBranchDecoded` | crates/fors-asm/src/encode.rs:277-288 | CBZ and CBNZ words give register, width and 19-bit offset back |
| `RoundTrip.TestBranchDecoded` | crates/fors-asm/src/encode.rs:290-304 | TBZ and TBNZ words give register, six-bit bit number and 14-bit offset back |
| `RoundTrip.OffsetBack` | crates/fors-asm/src/encode.rs:269-304 | an offset read with its own width, or with a width it also fits, is read back |
| `RoundTrip.NarrowBackward` | crates/fors-asm/src/encode.rs:269-304 | a backward offset made for a narrower width is never read back by a wider field |
| `EncodingExact.LoadStoreReads` | crates/fors-asm/src/encode.rs:492-564 | a load or store reads back if and only if its scaled offset is zero or was made for its access size |
| `EncodingExact.FpLoadStoreReads` | crates/fors-asm/src/encode.rs:497-564 | the same for floating-point registers |
| `EncodingExact.PairReads` | crates/fors-asm/src/encode.rs:318-341 | a pair reads back if and only if its offset is zero or was made for its access size |
| `EncodingExact.BranchReads` | crates/fors-asm/src/encode.rs:269-271 | B and BL read back if and only if the offset fits the 26-bit field the way it was made |
| `EncodingExact.BranchCondReads` | crates/fors-asm/src/encode.rs:273-275 | B.cond reads back if and only if the offset reads in 19 bits, including when a wider one spills into the fixed bits |
| `EncodingExact.CompareBranchReads` | crates/fors-asm/src/encode.rs:277-288 | the same for CBZ and CBNZ |
| `EncodingExact.TestBranchReads` | crates/fors-asm/src/encode.rs:290-304 | TBZ and TBNZ read back if and only if the offset reads in 14 bits, or is a backward 19-bit one whose spilled bits are ones anyway |
| `EncodingExact.RoundTripExact` | crates/fors-asm/src/encode.rs:19-503 | for every instruction the constructors let through: its word reads back if and only if its offsets were made for its form |
| `EncodingExact.EqualWords` | crates/fors-asm/src/encode.rs:19-503 | equal words come from the same instruction, up to display alias, the SP or ZR reading of 31, the spelling of a TBZ operand and the width an offset was made for |
| `Fields.FieldSpells` | crates/fors-asm/src/encode.rs:31-38 | the field of a number below its range is that number |
| `Diagrams.EncodesManual` | crates/fors-asm/src/encode.rs:19-564 | every instruction the constructors let through, whose offset its form can hold, has the word of its diagram in the manual, operation by operation |
| `ExprParser.POr` | tools/ref/fors_parse.py:335-338 | a parse in tree form: what it consumed is the yield of the tree it built |
| `ExprParser.PCmp` | tools/ref/fors_parse.py:346-355 | chains of one bitwise operator, a single shift, or one unchained comparison |
| `ExprParser.PUnary` | tools/ref/fors_parse.py:372-374 | prefix operators, then a primary with its postfix operators |
| `ExprParser.FindsOr` | tools/ref/fors_parse.py:335-338 | every derivation tree, followed by a token that cannot continue it, is found again |
| `ExprParser.FindsCmp` | tools/ref/fors_parse.py:346-355 | the same for the comparison tier, bitwise chains and shifts included |
| `ExprParser.FindsBitChain` | tools/ref/fors_parse.py:346-355 | the same for a chain of one bitwise operator |
| `ExprParser.FindsRange` | tools/ref/fors_parse.py:356-359 | the same for ranges, also when the first cast was already read |
| `ExprParser.FindsCast` | tools/ref/fors_parse.py:368-371 | the same for casts to plain paths |
| `ExprParser.FindsPrimary` | tools/ref/fors_parse.py:412-419 | the same for literals, dotted literals, names and groups |
| `ExprParser.AcceptsIffDerived` | docs/spec/07-grammar.md:250-267 | a whole token string is accepted if and only if the grammar derives it |
| `ExprParser.DerivationIsUnique` | docs/spec/07-grammar.md:250-267 | the grammar is unambiguous: equal yields have equal trees |
| `ExprRecognizer.Recognizer.K` | tools/ref/fors_parse.py:95-95 | looks ahead, to the end token beyond the last |
| `ExprRecognizer.Recognizer.Advance` | tools/ref/fors_parse.py:95-107 | consumes one token |
| `ExprRecognizer.Recognizer.Opt` | tools/ref/fors_parse.py:102-104 | consumes the token asked for if and only if it is next |
| `ExprRecognizer.Recognizer.ReadPath` | tools/ref/fors_parse.py:115-118 | reads a plain path as far as it goes |
| `ExprRecognizer.Recognizer.ReadItems` | tools/ref/fors_parse.py:108-114 | stops where the tree parser does on the items of a group, with or without a trailing comma |
| `ExprRecognizer.Recognizer.ReadOr` | tools/ref/fors_parse.py:335-338 | the cursor stops where the tree parser does, and fails exactly when it does |
| `ExprRecognizer.Recognizer.ReadAnd` | tools/ref/fors_parse.py:339-342 | the same for `and` |
| `ExprRecognizer.Recognizer.ReadNot` | tools/ref/fors_parse.py:343-345 | the same for `not` |
| `ExprRecognizer.Recognizer.ReadCmp` | tools/ref/fors_parse.py:346-355 | the same for the comparison tier, which reads the first cast once for all its forms |
| `ExprRecognizer.Recognizer.ReadRange` | tools/ref/fors_parse.py:356-359 | the same for ranges, started afresh or after a cast |
| `ExprRecognizer.Recognizer.ReadAdd` | tools/ref/fors_parse.py:360-363 | the same for sums |
| `ExprRecognizer.Recognizer.ReadMul` | tools/ref/fors_parse.py:364-367 | the same for products |
| `ExprRecognizer.Recognizer.ReadCast` | tools/ref/fors_parse.py:368-371 | the same for casts |
| `ExprRecognizer.Recognizer.ReadUnary` | tools/ref/fors_parse.py:372-374 | the same for prefix operators |
| `ExprRecognizer.Recognizer.ReadPostOps` | tools/ref/fors_parse.py:375-389 | the same for `?` and field access |
| `ExprRecognizer.Recognizer.ReadPostfix` | tools/ref/fors_parse.py:375-389 | the same for a primary with its postfix operators |
| `ExprRecognizer.Recognizer.ReadPrimary` | tools/ref/fors_parse.py:412-419 | the same for primaries |
| `ExprRecognizer.Recognizer.RecognizeAll` | tools/ref/fors_parse.py:335-374 | the recogniser consumes the whole string if and only if the grammar derives it |
| `ExprGenerator.GenOr` | tools/fuzz/gen.py:289-295 | whatever is drawn, the printed tokens are the yield of a tree of this tier |
| `ExprGenerator.GenAnd` | tools/fuzz/gen.py:296-302 | whatever is drawn, the printed tokens are the yield of a tree of this tier |
| `ExprGenerator.GenNot` | tools/fuzz/gen.py:303-307 | whatever is drawn, the printed tokens are the yield of a tree of this tier |
| `ExprGenerator.GenCmp` | tools/fuzz/gen.py:308-317 | whatever is drawn, the printed tokens are the yield of a tree of this tier |
| `ExprGenerator.GenBit` | tools/fuzz/gen.py:318-325 | whatever is drawn, the printed tokens are the yield of a tree of this tier |
| `ExprGenerator.GenRange` | tools/fuzz/gen.py:326-331 | whatever is drawn, the printed tokens are the yield of a tree of this tier |
| `ExprGenerator.GenAdd` | tools/fuzz/gen.py:332-338 | whatever is drawn, the printed tokens are the yield of a tree of this tier |
| `ExprGenerator.GenMul` | tools/fuzz/gen.py:339-345 | whatever is drawn, the printed tokens are the yield of a tree of this tier |
| `ExprGenerator.GenCast` | tools/fuzz/gen.py:346-351 | whatever is drawn, the printed tokens are the yield of a tree of this tier |
| `ExprGenerator.GenUnary` | tools/fuzz/gen.py:352-361 | whatever is drawn, the printed tokens are the yield of a tree of this tier |
| `ExprGenerator.GenPostfix` | tools/fuzz/gen.py:362-373 | whatever is drawn, the printed tokens are the yield of a tree of this tier |
| `ExprGenerator.GenPrimary` | tools/fuzz/gen.py:405-424 | whatever is drawn, the printed tokens are the yield of a tree of this tier |
| `ExprGenerator.GenGroup` | tools/fuzz/gen.py:425-431 | whatever is drawn, the printed tokens are the yield of a tree of this tier |
| `ExprGenerator.GenExpr` | tools/fuzz/gen.py:286-288 | every printed expression is derived by the grammar and accepted by the recogniser |
| `Reduction.FoldLane` | tools/ref/reduce_ref.py:5-8 | the loop over one strided lane folds that lane from the left |
| `Reduction.Block` | tools/ref/reduce_ref.py:3-16 | the halving loop over padded lanes computes the lane tree |
| `Reduction.Reduce` | tools/ref/reduce_ref.py:17-21 | the loop over blocks and the pairing loop compute the block tree |
| `Reduction.ShapeIsFixed` | tools/ref/reduce_ref.py:3-21 | the value is one expression tree, fixed by the length alone, with the elements at its leaves |
| `Reduction.StrideElements` | docs/spec/03-numerics-determinism.md:18-34 | lane j holds the elements at j, j+8, j+16, and so on |
| `Reduction.EightLanes` | docs/spec/03-numerics-determinism.md:34 | for every operation, the lanes combine as ((l0 l1)(l2 l3))((l4 l5)(l6 l7)), an empty one skipped |
| `Reduction.BlockAt` | docs/spec/03-numerics-determinism.md:34 | block b is the reduction of the elements from 256 b on, at most 256 of them |
| `Reduction.BlockTreeSplits` | tools/ref/reduce_ref.py:17-21 | for every operation, the tree over more than one block combines the trees over the first p and over the rest, p the largest power of two below their number |
| `Reduction.SmallShapes` | docs/spec/03-numerics-determinism.md:195 | the bracketings of seven and of nine elements |
| `Reduction.SerialUpToThree` | docs/spec/03-numerics-determinism.md:34 | the bracketing is that of the serial left fold if and only if there are at most three elements |
| `Reduction.ArrangedOnce` | tools/ref/reduce_ref.py:3-21 | the arrangement uses every element exactly once |
| `Reduction.ReducedIsPermutedFold` | tools/ref/reduce_ref.py:3-21 | for an associative operation, the reduction is a left fold over a permutation that depends only on the length |
| `Reduction.ReducedIsPlainFold` | tools/ref/reduce_ref.py:3-21 | for an associative and commutative operation, it is the plain left fold |
| `Tokenizer.Run` | tools/fuzz/mutate.py:117-153 | a scanning loop stops at the first character outside its class |
| `Tokenizer.BlockCommentEnd` | tools/fuzz/mutate.py:131-144 | ends at the mark that closes the outermost of nested comments, or at the end |
| `Tokenizer.StringEnd` | tools/fuzz/mutate.py:159-170 | ends after the first unescaped quote, before an unescaped line end, or at the end |
| `Tokenizer.Digits` | tools/fuzz/mutate.py:67-79 | digits with single separators between them |
| `Tokenizer.NumberEnd` | tools/fuzz/mutate.py:82-109 | a radix numeral, or decimal digits with fraction and exponent, and a glued suffix; ends before a character no word holds, and is empty only at a non-ASCII digit |
| `Tokenizer.PunctAt` | tools/fuzz/mutate.py:178-187 | the longest punctuation that matches |
| `Tokenizer.NextToken` | tools/fuzz/mutate.py:112-189 | the token is a slice of the source of the right kind; the position advances unless at a non-ASCII letter or digit |
| `Tokenizer.Tokenize` | tools/fuzz/mutate.py:112-193 | lossless: the rendered tokens are the source, and each token is what its kind says before what follows |
| `DeltaDebug.Checker.Check` | tools/fuzz/run.py:230-241 | counts the call, and says yes only within the call budget and if the input reproduces |
| `DeltaDebug.ChunksFlatten` | tools/fuzz/run.py:204-224 | the chunks of a list, joined, are the list |
| `DeltaDebug.WithoutChunk` | tools/fuzz/run.py:204-224 | joining all chunks but one drops exactly that stretch |
| `DeltaDebug.TryChunks` | tools/fuzz/run.py:207-219 | answers a shorter non-empty reproducing subsequence, or, while the budget lasts, shows every chunk is needed |
| `DeltaDebug.ReductionKeepsBound` | tools/fuzz/run.py:207-224 | after a reduction the chunk count is at most the length, except at length one |
| `DeltaDebug.AfterFailure` | tools/fuzz/run.py:207-223 | a failing pass, which doubles the number of chunks, and a last pass are paid for by the bound on the calls |
| `DeltaDebug.AfterSuccess` | tools/fuzz/run.py:207-219 | so is a pass that leaves out a chunk |
| `DeltaDebug.DDMin` | tools/fuzz/run.py:204-224 | terminates within n(n+6) calls for n items; the result is a subsequence that is the input or reproduces; 1-minimal if the budget was not spent |
| `DeltaDebug.MinimizeCase` | tools/fuzz/run.py:227-267 | for every call budget the result reproduces if the input did, and is the input otherwise; byte-wise 1-minimal if the budget was not spent, which no budget is that is quadratic in the characters and bytes of the input |
| `BodyScopes.CountersDecide` | crates/fors-check/src/body.rs:1316-1338 | the innermost loop lies inside the innermost deferred body if and only if the depth exceeds the depth recorded in the last frame |
| `BodyScopes.DefersAreDeferred` | crates/fors-check/src/body.rs:1342-1351 | a defer frame is open if and only if a deferred body of this closure encloses |
| `BodyScopes.SynthIsLast` | crates/fors-check/src/body.rs:519-548 | the last synthesis mark is the nearest closure's |
| `BodyScopes.BodyCx.EnterClosure` | crates/fors-check/src/body.rs:521-539 | zeroes the depth and the frames, swaps the types, and hands back what it saved |
| `BodyScopes.BodyCx.LeaveClosure` | crates/fors-check/src/body.rs:541-548 | restores what was saved |
| `BodyScopes.BodyCx.LoopExit` | crates/fors-check/src/body.rs:1316-1338 | refuses exactly when no loop of this closure is inside its innermost deferred body, with the right rule |
| `BodyScopes.BodyCx.InDefer` | crates/fors-check/src/body.rs:1342-1351 | refuses exactly inside a deferred body of this closure |
| `BodyScopes.BodyCx.Visit` | crates/fors-check/src/body.rs:950-977 | every construct, at any nesting, restores the state and refuses what the scope-chain reading refuses |
| `BodyScopes.BodyCx.LoopStmt` | crates/fors-check/src/body.rs:963-976 | the same for loops |
| `BodyScopes.BodyCx.ParallelForStmt` | crates/fors-check/src/body.rs:1421-1463 | the same for `parallel for`, whose grain is judged inside the loop |
| `BodyScopes.BodyCx.DeferStmt` | crates/fors-check/src/body.rs:1353-1376 | the same for `defer` and `errdefer` |
| `BodyScopes.BodyCx.ClosureExpr` | crates/fors-check/src/body.rs:519-548 | the same for closures |
| `BodyScopes.BodyCx.ReturnStmt` | crates/fors-check/src/body.rs:1236-1272 | the same for `return` |
| `BodyScopes.BodyCx.RaiseStmt` | crates/fors-check/src/body.rs:1274-1314 | the same for `raise` |
| `BodyScopes.AcceptedLeaves` | crates/fors-check/src/body.rs:1316-1376 | a node accepted without refusal leaves in a way only if its surroundings allow that way |
| `BodyScopes.LoopAround` | crates/fors-check/src/body.rs:1421-1463 | putting a loop around a node changes its verdicts exactly if it has a direct early exit |
| `BodyScopes.VerdictsRightIff` | crates/fors-check/src/body.rs:1448-1461 | the verdicts are those of a grain judged outside its loop if and only if no grain has a direct exit where that matters; otherwise there are fewer refusals |
| `BodyScopes.GrainEscapes` | crates/fors-check/src/body.rs:1448-1461 | a concrete deferred body, accepted, that a `break` leaves |
| `BodyScopes.LeavesExactly` | crates/fors-check/src/body.rs:1316-1463 | an accepted node is left by `break` or `continue` exactly through a direct exit or a grain, and outside a loop only through a grain |
| `BodyScopes.JumpVerdicts` | crates/fors-check/src/body.rs:1236-1338 | the verdict on a break, continue, return or raise by the scopes from the declaration to it: loops and deferred bodies of its own closure, and that closure's result, raises and synthesis |
| `BodyScopes.AcceptedIff` | crates/fors-check/src/body.rs:950-977 | a node is accepted if and only if every jump in it is, by the scopes it stands under |
| `BodyScopes.LeavesAllowed` | crates/fors-check/src/body.rs:1236-1314 | an accepted node returns only outside deferred bodies and closures still to be typed, and raises only outside deferred bodies and where raising is declared |
| `BodyScopes.AcceptedDeclaration` | crates/fors-check/src/body.rs:1274-1314 | an accepted declaration with a result and no `raises` never raises |
| `BodyScopes.AcceptedClosure` | crates/fors-check/src/body.rs:1236-1314 | nor does such a closure, and one still to be typed never returns |
| `BodyScopes.AcceptedDeferStays` | crates/fors-check/src/body.rs:1353-1376 | an accepted deferred body is never left by `return` or `raise`, and by `break` or `continue` if and only if a grain outside its closures and loop bodies holds one |
| `BodyScopes.GrainInClosureStays` | crates/fors-check/src/body.rs:1448-1461 | a missing refusal inside a closure leaves no deferred body |
| `BodyScopes.AcceptedBodyTargets` | crates/fors-check/src/body.rs:1316-1338 | an accepted body is left by `break` or `continue` if and only if a grain outside its closures and loop bodies holds one |
| `Resign.TouchesByQuotient` | spikes/macho-resign/resign.py:103-117 | a page overlaps the range if and only if its number is between two quotients |
| `Resign.PagesForRange` | spikes/macho-resign/resign.py:103-112 | yields exactly the code slots whose pages overlap the range, ascending |
| `Resign.PageSizes` | spikes/macho-resign/resign.py:97 | 4096 bytes where the directory leaves it open or says 12, 16384 at 14, and twice as many for one more |
| `Resign.PageOfByte` | spikes/macho-resign/resign.py:114-117 | a byte of the code is hashed in a slot if and only if its number, halved as often as the directory says, is the slot's |
| `Resign.TouchesByBytes` | spikes/macho-resign/resign.py:103-112 | a range touches a page if and only if one of its bytes lies in it |
| `Resign.PageBytes` | spikes/macho-resign/resign.py:114-117 | byte m of a page is byte m after that many whole pages; a page ends with the code |
| `Resign.SlotBytes` | spikes/macho-resign/resign.py:99-101 | byte j of slot k lies k hashes and j bytes into the hash table of the blob |
| `Resign.SlotsApart` | spikes/macho-resign/resign.py:90-101 | no byte belongs to two hash slots |
| `Resign.WriteSlot` | spikes/macho-resign/resign.py:226-233 | writing one page's hash makes that slot valid, changes only its bytes, and leaves every other slot as valid as it was |
| `Resign.File.Write` | spikes/macho-resign/resign.py:216-217 | overwrites a range in place |
| `Resign.File.RehashDirectory` | spikes/macho-resign/resign.py:220-234 | re-hashes exactly the touched slots of one directory and keeps those already done |
| `Resign.File.PatchAndResign` | spikes/macho-resign/resign.py:197-238 | refuses a range beyond any code limit without change; otherwise only the range and touched slots change, and touched slots hold their pages' hashes |
| `Resign.UntouchedSlot` | spikes/macho-resign/resign.py:197-238 | an untouched slot is exactly as valid as it was |
| `Resign.ValidAfterIff` | spikes/macho-resign/resign.py:197-238 | all slots are valid afterwards if and only if the untouched ones were valid before |
| `Resign.FullRehashIsUnique` | spikes/macho-resign/resign.py:197-238 | a full re-hash of given contents has one result |
| `Resign.AsFullRehash` | spikes/macho-resign/resign.py:197-238 | from a valid file, the result is the full re-hash of the patched contents, and nothing else is |
| `DepSet.RotateBack` | crates/fors-check/src/deps.rs:69-81 | the 17-bit rotation of a 128-bit word has an inverse |
| `DepSet.MulBack` | crates/fors-check/src/deps.rs:69-81 | the wrapping odd multiplication has an inverse, both ways |
| `DepSet.StepInjective` | crates/fors-check/src/deps.rs:69-81 | equal step results: equal accumulators if and only if equal hashes |
| `DepSet.StepReaches` | crates/fors-check/src/deps.rs:69-81 | from any accumulator every word is reached by exactly one hash |
| `DepSet.FoldInjective` | crates/fors-check/src/deps.rs:69-81 | the whole fold is injective in its seed |
| `DepSet.OneChangeChangesKey` | crates/fors-check/src/deps.rs:69-81 | with one hash possibly changed, the keys are equal if and only if it was not |
| `DepSet.SwappedHashesChangeKey` | crates/fors-check/src/deps.rs:69-81 | the keys of two declarations with the hashes 0 and 1, and with them swapped, as numbers |
| `DepSet.AscendingIsUnique` | crates/fors-check/src/deps.rs:44-47 | an ascending list is determined by its elements |
| `DepSet.DepSet.Record` | crates/fors-check/src/deps.rs:33-41 | records a declaration unless it is none or repeats the last |
| `DepSet.DepSet.Finish` | crates/fors-check/src/deps.rs:44-47 | ends strictly ascending with the same elements |
| `DepSet.DepSet.Take` | crates/fors-check/src/deps.rs:61-67 | hands the finished set over and leaves this one empty |
| `DepSet.DepSet.Key` | crates/fors-check/src/deps.rs:69-81 | the loop computes the fold |
| `DepSet.KeyOfReads` | crates/fors-check/src/deps.rs:33-81 | the key depends only on the set of declarations recorded, not on their order or repetition |
| `DepSet.KeyTracksReads` | crates/fors-check/src/deps.rs:69-81 | changing one declaration's hash changes the key if and only if it was recorded |
| `PatternArena.SortIsStable` | crates/fors-check/src/facts.rs:425-433 | sorted by component, the same children, and those of one component in their old order |
| `PatternArena.StableSortIsUnique` | crates/fors-check/src/facts.rs:425-433 | only one arrangement is sorted and stable |
| `PatternArena.OpenKeeps` | crates/fors-check/src/facts.rs:355-371 | keeps the forest invariant, and rows already complete keep their spans |
| `PatternArena.LeafKeeps` | crates/fors-check/src/facts.rs:389-403 | keeps the forest invariant, and rows already complete keep their spans |
| `PatternArena.SetShapeKeeps` | crates/fors-check/src/facts.rs:406-410 | keeps the forest invariant, and rows already complete keep their spans |
| `PatternArena.SlotLastKeeps` | crates/fors-check/src/facts.rs:413-419 | keeps the forest invariant, and rows already complete keep their spans |
| `PatternArena.SortKeeps` | crates/fors-check/src/facts.rs:425-433 | keeps the forest invariant, and rows already complete keep their spans |
| `PatternArena.CloseKeeps` | crates/fors-check/src/facts.rs:374-384 | keeps the forest invariant, and rows already complete keep their spans |
| `PatternArena.ApplyKeeps` | crates/fors-check/src/facts.rs:355-433 | every operation does |
| `PatternArena.RunKeepsTrees` | crates/fors-check/src/facts.rs:355-433 | through every run of operations the tree below a complete row stays as it is |
| `PatternArena.CloseWritesSpan` | crates/fors-check/src/facts.rs:374-384 | the closed row's span is exactly the children it registered, in order |
| `PatternArena.CloseRecords` | crates/fors-check/src/facts.rs:374-384 | the closed row's tree is its shape over its children's trees with their components |
| `PatternArena.RecordsTree` | crates/fors-check/src/facts.rs:355-419 | in every state, recording a tree registers one row, changes no other, and the row's tree is the one recorded |
| `PatternArena.SpansTile` | crates/fors-check/src/facts.rs:374-384 | every written position lies in the span of exactly one closed row |
| `PatternArena.ParentIsSmaller` | crates/fors-check/src/facts.rs:355-384 | a child's index is larger than its parent's |
| `PatternArena.OneParent` | crates/fors-check/src/facts.rs:355-384 | no row has two parents |
| `PatternArena.RootOrChild` | crates/fors-check/src/facts.rs:355-438 | a row is a root if and only if it has no parent |
| `PatternArena.PatternFacts.constructor` | crates/fors-check/src/facts.rs:329-343 | starts as the empty arena |
| `PatternArena.PatternFacts.SubsOf` | crates/fors-check/src/facts.rs:347-350 | the children, all of them later rows; none for a row not closed |
| `PatternArena.PatternFacts.Open` | crates/fors-check/src/facts.rs:355-371 | does what the specified operation does to the whole state |
| `PatternArena.PatternFacts.Close` | crates/fors-check/src/facts.rs:374-384 | the same for closing |
| `PatternArena.PatternFacts.Leaf` | crates/fors-check/src/facts.rs:389-403 | the same for childless rows, complete at once |
| `PatternArena.PatternFacts.SetShape` | crates/fors-check/src/facts.rs:406-410 | the same for the shape of the open row |
| `PatternArena.PatternFacts.SlotLast` | crates/fors-check/src/facts.rs:413-419 | the same for the component of the last child |
| `PatternArena.PatternFacts.SortChildren` | crates/fors-check/src/facts.rs:425-433 | the same for sorting |
| `Triad.Clamped` | bench/calibrate/bandwidth.c:72-75 | the thread count is at least one and at most the length |
| `Triad.BlocksGrow` | bench/calibrate/bandwidth.c:93-101 | blocks start at zero, end at the length, and none is empty |
| `Triad.BlocksDisjoint` | bench/calibrate/bandwidth.c:93-101 | no index is in two blocks |
| `Triad.BlocksCover` | bench/calibrate/bandwidth.c:93-101 | every index is in a block |
| `Triad.SplitBlocks` | bench/calibrate/bandwidth.c:93-101 | the loop builds that partition |
| `Triad.BlocksEven` | bench/calibrate/bandwidth.c:93-101 | each block has the length divided by the number of threads, or one element more |
| `Triad.StepKeeps` | bench/calibrate/bandwidth.c:46-65 | every step of every thread keeps the invariant |
| `Triad.BarrierHolds` | bench/calibrate/common.h:45-55 | in every interleaving, a thread past the barrier has all threads arrived and the whole input initialised |
| `Triad.CompletedIsSequential` | bench/calibrate/bandwidth.c:46-117 | every completed run leaves the sequential triad's array |
| `Triad.Checksum` | bench/calibrate/bandwidth.c:116-117 | the loop sums the array |
| `Triad.ChecksumIsStable` | bench/calibrate/bandwidth.c:46-117 | two completed runs of one length agree on array and checksum, whatever their thread counts, repetitions and schedules |
| `Triad.ChecksumIs` | bench/calibrate/bandwidth.c:46-117 | the sequential checksum is 455 for every 35 elements, and that of the rest |
| `Triad.StepWorks` | bench/calibrate/bandwidth.c:46-65 | every step that changes anything uses up work |
| `Triad.NoDeadlock` | bench/calibrate/common.h:45-55 | until all threads are done, some thread can move |
| `Triad.CanComplete` | bench/calibrate/bandwidth.c:46-65 | from every reachable state some schedule completes |
| `Triad.FairCompletes` | bench/calibrate/bandwidth.c:46-65 | under every fair schedule all threads finish |
| `Triad.DoneIsStable` | bench/calibrate/bandwidth.c:46-65 | once all have finished, no step changes anything |

## Left out

- Witness rendering, name interning and diagnostic texts of the exhaustiveness check; 64-bit step counters are unbounded naturals, so saturation is not modelled.
- Constructor sub-types and signatures are given by a coherent typing function, and so is whether a type without a signature has values.
- One-line instruction constructors that only call a validating one (`movz`, `add_imm`, `cmp`, `mov`, `tst`, `neg`, `mvn`, and so on) and the floating-point constructors, whose checks are part of what `Constructed` says.
- The text of instructions, except the amount printed for `LSL`; the table of 256 float immediates (the eight bits are taken as given); error texts and values.
- The execution of `BFM`, and of instructions other than bitfield moves and conditional selects. UNDEFINED is modelled for `udf` and the six classes of data processing whose fields can make it so.
- GoldenWords: one word of every layout, not the whole golden file.
- Diagrams.EncodesManual: says nothing of an offset made for another form that its own cannot hold, because the encoder then gives no instruction of the form; `EncodingExact.RoundTripExact` covers those.
- Calls, brackets, closures, struct literals and casts to types that are not plain paths in expressions, so that an opening parenthesis after an operand and a leading `|` are outside the token alphabet; declarations, statements and types.
- ExprGenerator.GenExpr: the random draws are arbitrary choices within their bounds, because the property holds for all of them.
- The mutations, and what the tokenizer does at non-ASCII letters and digits beyond not advancing.
- DeltaDebug.MinimizeCase: says nothing of minimality once the call budget is spent, because the loop then stops wherever it is; that a large budget is not spent is stated for encodings that go character by character.
- DeltaDebug: reproducing is a pure predicate; running the compiler, files and timeouts are not modelled.
- The type, failure and authority judgements that the body walk calls, and its one-diagnostic budget.
- Mach-O parsing, cloning, renaming, syncing and short reads; the hash is any function whose digests are long enough, and hash tables are assumed disjoint and beyond every code limit.
- Library sorting and deduplication are modelled by insertion sort and a scan; uniqueness lemmas say no other sort with the same promise could differ.
- 32-bit indices of the pattern arena are unbounded naturals.
- Clocks, memory orders weaker than atomic steps, and floating point in the bandwidth kernel, whose values are small exact integers.
- Harnesses, reports, calibration drivers and compile-speed scripts.
