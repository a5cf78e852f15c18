/** The term language of the optimizer and the per-class metadata record.

    `Mdl` is the closed set of node kinds the equality-saturation engine
    manipulates; each operator node refers to its operands by e-class `Id`.
    `ValTnsr` is the metadata one e-class carries, tagged by `DataKind`. */
module Lang {
  import opened Wrappers
  import opened Text

  /** Padding and activation codes, shared verbatim with the TASO backend. */
  const PSAME: i32 := 0
  const PVALID: i32 := 1

  const ACTNONE: i32 := 0
  const ACTSIGMOID: i32 := 1
  const ACTRELU: i32 := 2
  const ACTTANH: i32 := 3

  /** An e-class identifier. */
  type Id = nat

  datatype Mdl =
    | Input(name: Id)                    // the operand is a Name record `<id>@<d1>_..._<dn>`
    | Weight(name: Id)                   // the operand is a Name record `<id>@<d1>_..._<dn>`
    | Ewadd(a: Id, b: Id)
    | Ewmul(a: Id, b: Id)
    | Smul(a: Id, b: Id)
    | Transpose(a: Id)
    | Matmul(act: Id, a: Id, b: Id)
    | Conv2d(strideH: Id, strideW: Id, pad: Id, act: Id, input: Id, weight: Id)
    | Enlarge(a: Id, b: Id)              // the tensor to enlarge, the reference tensor
    | Relu(a: Id)
    | Tanh(a: Id)
    | Sigmoid(a: Id)
    | Poolavg(input: Id, kernelH: Id, kernelW: Id, strideH: Id, strideW: Id, pad: Id, act: Id)
    | Poolmax(input: Id, kernelH: Id, kernelW: Id, strideH: Id, strideW: Id, pad: Id, act: Id)
    | Concat(axis: Id, ndim: Id, a: Id, b: Id)  // ndim is only type-checked
    | Split0(tuple: Id)                  // first half of a Split node's pair
    | Split1(tuple: Id)                  // second half of a Split node's pair
    | Split(axis: Id, input: Id)
    | Cpool(a: Id, b: Id)
    | Iconv(a: Id, b: Id)
    | Imatmul
    | Iewmul
    | Merge(weight: Id, count: Id)       // merge_gconv: the weight and the group count
    | Num(n: i32)
    | Var(s: string)

  /** The operand e-classes of a node, in the order the node lists them. */
  function Children(node: Mdl): seq<Id> {
    match node
    case Input(name) => [name]
    case Weight(name) => [name]
    case Ewadd(a, b) => [a, b]
    case Ewmul(a, b) => [a, b]
    case Smul(a, b) => [a, b]
    case Transpose(a) => [a]
    case Matmul(act, a, b) => [act, a, b]
    case Conv2d(sh, sw, pad, act, input, weight) => [sh, sw, pad, act, input, weight]
    case Enlarge(a, b) => [a, b]
    case Relu(a) => [a]
    case Tanh(a) => [a]
    case Sigmoid(a) => [a]
    case Poolavg(input, kh, kw, sh, sw, pad, act) => [input, kh, kw, sh, sw, pad, act]
    case Poolmax(input, kh, kw, sh, sw, pad, act) => [input, kh, kw, sh, sw, pad, act]
    case Concat(axis, ndim, a, b) => [axis, ndim, a, b]
    case Split0(t) => [t]
    case Split1(t) => [t]
    case Split(axis, input) => [axis, input]
    case Cpool(a, b) => [a, b]
    case Iconv(a, b) => [a, b]
    case Imatmul => []
    case Iewmul => []
    case Merge(weight, count) => [weight, count]
    case Num(_) => []
    case Var(_) => []
  }

  /** The node kinds the grammar declares but the analysis has no translation for. */
  predicate Unhandled(node: Mdl) {
    node.Smul? || node.Transpose? || node.Poolavg? || node.Cpool? || node.Iconv? || node.Imatmul? || node.Iewmul?
  }

  /** What an e-class holds. */
  datatype DataKind = Name | Scalar | Tnsr | TnsrTuple

  /** An opaque reference to a tensor owned by the backend: output `idx` of op
      `op`, or null. */
  datatype Handle = Null | Ptr(op: nat, idx: nat)

  /** The metadata of one e-class. `dtype` says which payload is meaningful. */
  datatype ValTnsr = ValTnsr(dtype: DataKind, val: i32, name: string, meta: Handle, meta2: Handle)

  /** The payload discipline every record built by the analysis keeps: the tag
      decides which fields carry data, and every other field holds its empty value. */
  predicate WellFormed(d: ValTnsr) {
    match d.dtype
    case Name => d.val == 0 && d.meta == Null && d.meta2 == Null
    case Scalar => d.name == "" && d.meta == Null && d.meta2 == Null
    case Tnsr => d.val == 0 && d.name == "" && d.meta.Ptr? && d.meta2 == Null
    case TnsrTuple => d.val == 0 && d.name == "" && d.meta.Ptr? && d.meta2.Ptr?
  }

  function ScalarRecord(n: i32): (d: ValTnsr)
    ensures d.dtype == Scalar && d.val == n && WellFormed(d)
  {
    ValTnsr(Scalar, n, "", Null, Null)
  }

  function NameRecord(s: string): (d: ValTnsr)
    ensures d.dtype == Name && d.name == s && WellFormed(d)
  {
    ValTnsr(Name, 0, s, Null, Null)
  }

  function TensorRecord(h: Handle): (d: ValTnsr)
    ensures d.dtype == Tnsr && d.meta == h
    ensures WellFormed(d) <==> h.Ptr?
  {
    ValTnsr(Tnsr, 0, "", h, Null)
  }

  function TupleRecord(first: Handle, second: Handle): (d: ValTnsr)
    ensures d.dtype == TnsrTuple && d.meta == first && d.meta2 == second
    ensures WellFormed(d) <==> first.Ptr? && second.Ptr?
  {
    ValTnsr(TnsrTuple, 0, "", first, second)
  }

  /** One operand tag assertion: the operand at `position` of the node must
      hold a record tagged `kind`. */
  datatype Check = Check(position: nat, kind: DataKind)

  /** The operand tag assertions of each node kind, in the order the analysis
      makes them (which is not always the operand order: pooling checks its six
      scalars before its input, merge checks the count before the weight). Node
      kinds without a translation assert nothing. */
  function Checks(node: Mdl): (cs: seq<Check>)
    ensures cs == [] <==> Unhandled(node) || node.Num? || node.Var?
  {
    match node
    case Matmul(_, _, _) => [Check(0, Scalar), Check(1, Tnsr), Check(2, Tnsr)]
    case Conv2d(_, _, _, _, _, _) =>
      [Check(0, Scalar), Check(1, Scalar), Check(2, Scalar), Check(3, Scalar), Check(4, Tnsr), Check(5, Tnsr)]
    case Ewadd(_, _) => [Check(0, Tnsr), Check(1, Tnsr)]
    case Ewmul(_, _) => [Check(0, Tnsr), Check(1, Tnsr)]
    case Relu(_) => [Check(0, Tnsr)]
    case Tanh(_) => [Check(0, Tnsr)]
    case Sigmoid(_) => [Check(0, Tnsr)]
    case Input(_) => [Check(0, Name)]
    case Weight(_) => [Check(0, Name)]
    case Concat(_, _, _, _) => [Check(0, Scalar), Check(1, Scalar), Check(2, Tnsr), Check(3, Tnsr)]
    case Merge(_, _) => [Check(1, Scalar), Check(0, Tnsr)]
    case Poolmax(_, _, _, _, _, _, _) =>
      [Check(1, Scalar), Check(2, Scalar), Check(3, Scalar), Check(4, Scalar), Check(5, Scalar), Check(6, Scalar),
       Check(0, Tnsr)]
    case Split(_, _) => [Check(0, Scalar), Check(1, Tnsr)]
    case Split0(_) => [Check(0, TnsrTuple)]
    case Split1(_) => [Check(0, TnsrTuple)]
    case Enlarge(_, _) => [Check(0, Tnsr), Check(1, Tnsr)]
    case _ => []
  }

  /** Every assertion names an operand the node has, each operand is checked
      at most once, and every operand of a handled operator is checked. */
  lemma ChecksCoverOperands(node: Mdl)
    ensures forall i :: 0 <= i < |Checks(node)| ==> Checks(node)[i].position < |Children(node)|
    ensures forall i, j :: 0 <= i < j < |Checks(node)| ==> Checks(node)[i].position != Checks(node)[j].position
    ensures Unhandled(node) ==> Checks(node) == []
    ensures !Unhandled(node) ==> |Checks(node)| == |Children(node)|
  {
  }

  /** A value of TASO's padding-mode type, known by its integer representation. */
  datatype PaddingMode = PaddingMode(code: int)

  /** A value of TASO's activation-mode type, known by its integer representation. */
  datatype ActiMode = ActiMode(code: int)

  /** `i32::try_into` for the two mode types. The types come from generated
      bindings that are not part of this model, so each conversion is a partial
      function: `None` is the `Err` that `unwrap` turns into an abort. */
  datatype Conversions = Conversions(padding: i32 -> Option<PaddingMode>, activation: i32 -> Option<ActiMode>)

  /** What every conversion of these types does: a code that converts keeps its
      value, and the codes declared above convert. */
  predicate Sound(conv: Conversions) {
    && (forall code: i32 :: conv.padding(code).Some? ==> conv.padding(code).value.code == code as int)
    && (forall code: i32 :: conv.activation(code).Some? ==> conv.activation(code).value.code == code as int)
    && conv.padding(PSAME).Some? && conv.padding(PVALID).Some?
    && conv.activation(ACTNONE).Some? && conv.activation(ACTSIGMOID).Some?
    && conv.activation(ACTRELU).Some? && conv.activation(ACTTANH).Some?
  }

  /** The reading in which the mode types are enums with exactly the declared
      variants: any other code is rejected. */
  function EnumConversions(): (conv: Conversions)
    ensures Sound(conv)
    ensures forall code: i32 :: conv.padding(code).Some? <==> code == PSAME || code == PVALID
    ensures forall code: i32 :: conv.activation(code).Some? <==> ACTNONE <= code <= ACTTANH
  {
    Conversions(
      code => if code == PSAME || code == PVALID then Some(PaddingMode(code as int)) else None,
      code => if ACTNONE <= code <= ACTTANH then Some(ActiMode(code as int)) else None)
  }

  /** The reading in which the mode types are unsigned integer aliases, as
      bindgen emits C++ enums in constant style: every non-negative code
      converts, only negative ones are rejected. */
  function AliasConversions(): (conv: Conversions)
    ensures Sound(conv)
    ensures forall code: i32 :: conv.padding(code).Some? <==> code >= 0
    ensures forall code: i32 :: conv.activation(code).Some? <==> code >= 0
  {
    Conversions(
      code => if code >= 0 then Some(PaddingMode(code as int)) else None,
      code => if code >= 0 then Some(ActiMode(code as int)) else None)
  }

  /** Why `make` aborts. Every one of these is a panic in the analysis. */
  datatype Fault =
    | KindMismatch(position: nat, expected: DataKind)  // an operand's tag assertion failed
    | NameNotTwoParts(parts: nat)                      // the name does not split on '@' into two
    | BadDimension(segment: string)                    // a dimension does not parse as an i32
    | RankTooLarge(rank: nat)                          // the number of dimensions does not fit an i32
    | BadPadding(code: i32)                            // the scalar does not convert to a padding mode
    | BadActivation(code: i32)                         // the scalar does not convert to an activation mode
    | SplitRejected                                    // the backend returned its invalid op
    | Unimplemented                                    // a node kind without a translation
}
