# tensat metadata analysis, in Dafny

tensat optimizes tensor computation graphs by equality saturation over an
e-graph. Every e-class carries a metadata record (`ValTnsr`) with a tag
(`DataKind`: a name, a scalar, a tensor or a pair of tensors) and the payload
that tag calls for. The metadata analysis (`TensorAnalysis`) has two entry
points:

- `make` builds the record of a new node from its operands' records. For tensor
  operators it asks the TASO backend graph to create the op, which returns a
  handle to the op's output.
- `merge` reconciles two records when their e-classes are merged.

This project models that analysis. The record layout is in `lang.dfy`. The
backend graph, as far as the analysis can observe it, is in `taso.dfy`. The
Rust string splitting and integer parsing that name parsing relies on are in
`text.dfy`. `make` and `merge` are in `analysis.dfy`.

`make` has two layers:

- `Analysis.Translate` is a pure function. It holds every decision `make`
  takes on its own:
  - the operand tag assertions, in the order the source makes them;
  - the decoding of padding and activation codes;
  - the parsing of `<id>@<d1>_..._<dn>` names;
  - the request to send to the backend, or the record to return directly.
- `Analysis.TensorAnalysis.Make` is a method. It carries that decision out
  against a `Taso.Graph` object. The graph records every op it creates and
  every edge it adds in an append-only log.

Every abort of the source (`assert!`, `unwrap`, `todo!`) becomes a `Failure`
carrying a `Lang.Fault`, except the aborts listed under "## Left out": the
buffer capacity assertions and the overflow panic of the dimension product.
`Make`'s contract states that:

- a failed translation leaves the graph untouched, so a backend call happens
  only after every check has passed;
- each successful call appends exactly one op.

## Model

| member | source | states |
|---|---|---|
| Text.SplitOn | src/model.rs:131-134 | `str::split` on one character: one more piece than separators, and no piece contains the separator |
| Text.JoinOfSplit | src/model.rs:131-134 | splitting loses nothing: re-joining the pieces gives the string back |
| Text.SplitWithoutSeparator | src/model.rs:131-132 | a string without '@' splits into one piece |
| Text.SplitAfterPiece | src/model.rs:131-134 | a separator-free prefix followed by the separator becomes the first piece |
| Text.SplitOfJoin | src/model.rs:133-135 | splitting separator-free pieces joined by the separator gives the pieces back |
| Text.JoinAvoids | src/model.rs:131-134 | a character in no piece, other than the separator, is not in the joined string |
| Text.ParseI32 | src/model.rs:135 | `parse::<i32>`: succeeds only on an optional sign followed by digits |
| Text.ParseSigned | src/model.rs:135 | every in-range numeral parses to its value: unsigned, with '+' or '-', and with leading zeros |
| Text.ParseMagnitude | src/model.rs:135 | succeeds exactly when the digits are non-empty, all decimal, and their signed value is in the i32 range; the result is that value |
| Text.ParseRejectsOverflow | src/model.rs:135 | a numeral outside the i32 range is rejected, with or without a sign; -2147483648 is accepted |
| Text.ShowI32 | src/model.rs:135 | the decimal rendering that parsing inverts: digits and '-' only |
| Text.ParseOfShow | src/model.rs:135 | `parse::<i32>` inverts decimal rendering for every i32 |
| Lang.ScalarRecord | src/model.rs:483-489 | a literal's record: tag Scalar, the literal as value, the other fields empty |
| Lang.NameRecord | src/model.rs:491-497 | a symbol's record: tag Name, the symbol as name, the other fields empty |
| Lang.TensorRecord | src/model.rs:155-161 | a tensor record: tag Tnsr and the handle; well-formed exactly when the handle is live |
| Lang.TupleRecord | src/model.rs:425-431 | a split's record: tag TnsrTuple and both handles; well-formed exactly when both are live |
| Lang.WellFormed | src/model.rs:70-81 | the tag decides which payload fields carry data; every other field holds its empty value |
| Lang.Unhandled | src/model.rs:499-502 | the node kinds that reach the catch-all arm: smul, transpose, poolavg, Cpool, Iconv, Imatmul and Iewmul |
| Lang.Checks | src/model.rs:142-502 | the operand tag assertions of each branch, in source order; the list is empty exactly for the unhandled kinds, literals and symbols |
| Lang.EnumConversions | src/model.rs:151 | one sound reading of the mode conversions: exactly the declared codes convert |
| Lang.AliasConversions | src/model.rs:151 | another sound reading: every non-negative code converts, as for bindgen's integer aliases |
| Lang.ChecksCoverOperands | src/model.rs:142-502 | the operand tag assertions name each operand of a translated operator exactly once; the unimplemented kinds assert nothing |
| Taso.Graph.Create | src/model.rs:154 | a backend op constructor appends one op, numbered differently from every op already logged, and returns output 0 of it |
| Taso.Graph.GetOrCreateSplit1 | src/model.rs:418 | the split constructor creates an op numbered differently from every logged op when the backend accepts the split; otherwise it returns the invalid op and changes nothing |
| Taso.Graph.AddEdge | src/model.rs:420 | an edge is appended to the log and no op is created |
| Analysis.ParseDims | src/model.rs:133-136 | succeeds exactly when every segment parses; keeps order and length; otherwise names a segment that does not parse |
| Analysis.DimFromName | src/model.rs:130-138 | aborts unless the name splits on '@' into exactly two parts; succeeds exactly when there is one '@' and every '_' segment after it parses; the values match the segments in order |
| Analysis.DimFromNameOfRendered | src/model.rs:130-138 | `<id>@<d1>_..._<dn>` yields exactly d1..dn, for every id without '@' and every non-empty i32 list |
| Analysis.TrailingAtRejected | src/model.rs:131-135 | `x@` is rejected: its dimension segment is empty |
| Analysis.EmptySegmentRejected | src/model.rs:133-135 | `a@3__4` is rejected: it has an empty segment between the two '_' |
| Analysis.NonPositiveDimsAccepted | src/model.rs:133-136 | dimensions are not checked for sign: `w@0_-3` yields 0 and -3 |
| Analysis.Product | src/model.rs:308 | the unbounded product of the dimensions, as `dims.iter().product()` computes it without overflow: zero exactly when some dimension is zero |
| Analysis.BufferLength | src/model.rs:309 | `(0..num_entries)` has entries exactly when the product is positive, and then as many as the product |
| Analysis.BufferOfPositiveDims | src/model.rs:308-309 | with positive dimensions the weight buffer has one entry per tensor element |
| Analysis.Padding | src/model.rs:178 | `try_into().unwrap()` on a padding scalar: succeeds exactly when the conversion does, otherwise aborts with that code; under a sound conversion it keeps the code, and PSAME and PVALID always convert |
| Analysis.Activation | src/model.rs:151 | the same for an activation scalar; ACTNONE to ACTTANH always convert |
| Analysis.Rank | src/model.rs:288 | `ndim.try_into().unwrap()`: the rank converts exactly when it fits an i32 and keeps its value; otherwise it aborts with RankTooLarge |
| Analysis.Operands | src/model.rs:129 | the operand records are read through the e-graph, one per operand, in order |
| Analysis.OperandsFrame | src/model.rs:129 | `make` sees only the records of the node's own operands |
| Analysis.FirstMismatch | src/model.rs:144-146 | the assertions run in order: none fails exactly when all pass; otherwise the first one that fails is reported |
| Analysis.Translate | src/model.rs:142-502 | a success implies that every operand tag assertion held; a tag fault happens exactly when one of them fails |
| Analysis.TranslateChecked | src/model.rs:142-502 | once the tags have been checked, the faults left are name, dimension, rank, mode and unimplemented faults: never a tag fault, never a split rejection |
| Analysis.TranslateKind | src/model.rs:142-502 | the tag of the result is fixed by the node kind, and only a split yields a pair; exactly the kinds without a translation abort as unimplemented; only literals, symbols and projections skip the backend |
| Analysis.NumTranslation | src/model.rs:483-489 | a literal yields a well-formed Scalar record with its value, and makes no backend call |
| Analysis.VarTranslation | src/model.rs:491-497 | a symbol yields a well-formed Name record with that symbol, whatever its form |
| Analysis.PlainNameRejectedByInput | src/model.rs:130-132 | a symbol without '@' is a valid name record, but an input over it aborts: names are parsed only where they are consumed |
| Analysis.ProjectionTranslation | src/model.rs:435-461 | split_0/split_1 succeed exactly on a TnsrTuple operand and return its first/second handle as a tensor with a null second handle |
| Analysis.SplitTranslation | src/model.rs:407-419 | a split needs a Scalar axis, then a Tnsr input; it asks for two parts of the input along the axis |
| Analysis.InputTranslation | src/model.rs:275-289 | an input needs a Name with a parsable name and a rank that fits an i32; it passes the rank and the dimensions in order; each fault is the one the first failing step raises |
| Analysis.WeightTranslation | src/model.rs:298-320 | like input, and the value buffer length equals the product of the dimensions (zero when the product is not positive) |
| Analysis.MatmulTranslation | src/model.rs:142-155 | Scalar activation, then two tensors, checked in that order; the activation must decode |
| Analysis.Conv2dTranslation | src/model.rs:164-184 | four scalars, then two tensors; padding and activation must decode; strides passed unchanged |
| Analysis.PoolmaxTranslation | src/model.rs:373-397 | the six scalars are checked before the input tensor; padding and activation must decode |
| Analysis.ConcatTranslation | src/model.rs:329-344 | two scalars and two tensors; the backend is told to join exactly two tensors, and the rank operand's value has no effect |
| Analysis.MergeTranslation | src/model.rs:353-364 | the count is checked before the weight; success exactly when the count is a Scalar and the weight a Tnsr; the weight handle and the count are passed |
| Analysis.TensorOpTranslation | src/model.rs:193-273 | ewadd, ewmul, enlarge, relu, tanh and sigmoid need only tensors; the activations are applied in place |
| Analysis.DirectKeepsWellFormed | src/model.rs:435-497 | records built without a backend call from well-formed operands are well-formed |
| Analysis.TensorAnalysis.constructor | src/model.rs:98-101 | the analysis owns the graph it is given, and uses the given mode conversions |
| Analysis.TensorAnalysis.Make | src/model.rs:128-503 | a failed translation leaves the graph unchanged; a direct record is returned as is; a call creates exactly one fresh op; a split also adds the edge from its input's op, or aborts with no change when the backend rejects it; the result's tag is the node kind's; from well-formed operands the result is well-formed |
| Analysis.MergeRecords | src/model.rs:123-125 | merge reports no change and keeps the existing record |
| Analysis.MergeInto | src/model.rs:123-125 | merging a record into an e-class leaves the store of records exactly as it was |
| Analysis.MergePreservesTranslation | src/model.rs:123-125 | after a merge every node's operands hold the records they held before, so `make` would decide for it exactly as it did |

## Left out

- The backend's semantics are not modelled: shapes, costs, op deduplication and the values of created tensors. The graph model records only what was asked of it. Its get-or-create caching is modelled as always creating.
- Whether the backend accepts a split is a parameter of the graph (`splitAccepts`), because the source only observes its answer.
- The random floats that fill the weight buffer are left out. Only the buffer's length is modelled.
- The hand-over of the dimension and value buffers to the backend is left out: `shrink_to_fit`, the capacity assertions and `mem::forget` are memory plumbing.
- The `RefCell` borrow of the graph is left out, and so is the `println!` before `todo!`.
- The `Default` implementations of `DataKind`, `ValTnsr` and `TensorAnalysis` are not modelled. The `ValTnsr` one recurses into itself without end. The `TensorAnalysis` one constructs the foreign graph.
- Analysis.Product, Analysis.BufferLength, Analysis.BufferOfPositiveDims, Analysis.WeightTranslation: the product of the dimensions is taken over unbounded integers. An i32 overflow in `dims.iter().product()` is not modelled: dimensions 65536 and 65536 panic in a debug build and wrap to 0 in a release build.
- Analysis.Padding: `PaddingMode` comes from generated bindings that are not part of this model. Its conversion from `i32` is therefore a parameter of the analysis (`Lang.Conversions`). The model assumes only that a converted code keeps its value and that PSAME and PVALID convert. Which other codes convert is left open. If the binding is an unsigned integer alias, as the constant-style name `OpType_OP_EW_ADD` suggests, every non-negative code converts (`Lang.AliasConversions`).
- Analysis.Activation: the same holds for `ActiMode`: the model assumes that ACTNONE to ACTTANH convert and leaves other codes open.
- Analysis.TensorAnalysis.Make: it requires that a split's Tnsr input holds a live handle. The source dereferences that handle, so a null one is undefined behaviour there, not an abort.
- Dimensions are meant to be positive. The code does not check this, and neither does the model (Analysis.NonPositiveDimsAccepted).
