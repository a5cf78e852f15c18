/** The metadata analysis: `make` computes the record of a new e-class from its
    node and the records of its operand e-classes, creating ops in the TASO
    graph on the way; `merge` reconciles two records when e-classes merge.

    `make` is modelled in two layers. `Translate` is everything the analysis
    decides on its own: the operand tag assertions, the decoding of modes, the
    parsing of names, and the backend call to make (or the record to return
    directly). `TensorAnalysis.Make` then carries the decision out against the
    graph. A backend call can therefore only follow a translation that passed
    every check. */
module Analysis {
  import opened Wrappers
  import opened Text
  import opened Lang
  import opened Taso

  /** The records of the existing e-classes, by identifier. */
  type Store = map<Id, ValTnsr>

  predicate ChildrenIn(store: Store, node: Mdl) {
    forall c :: c in Children(node) ==> c in store
  }

  predicate ChildrenWellFormed(store: Store, node: Mdl)
    requires ChildrenIn(store, node)
  {
    forall c :: c in Children(node) ==> WellFormed(store[c])
  }

  // ----- dim_from_name -----

  /** Parses every segment as an `i32`, in order, stopping at the first that
      does not parse. */
  function ParseDims(segs: seq<string>): (r: Result<seq<i32>, Fault>)
    ensures r.Success? <==> forall i :: 0 <= i < |segs| ==> ParseI32(segs[i]).Some?
    ensures r.Success? ==> |r.value| == |segs|
    ensures r.Success? ==> forall i :: 0 <= i < |segs| ==> ParseI32(segs[i]) == Some(r.value[i])
    ensures r.Failure? ==> exists i :: 0 <= i < |segs| && r.error == BadDimension(segs[i]) && ParseI32(segs[i]).None?
    decreases |segs|
  {
    if segs == [] then Success([])
    else match ParseI32(segs[0])
      case None => Failure(BadDimension(segs[0]))
      case Some(d) =>
        var rest := ParseDims(segs[1..]);
        if rest.Failure? then
          assert exists i :: 0 <= i < |segs[1..]| && rest.error == BadDimension(segs[1..][i]) && ParseI32(segs[1..][i]).None?;
          var i :| 0 <= i < |segs[1..]| && rest.error == BadDimension(segs[1..][i]) && ParseI32(segs[1..][i]).None?;
          assert segs[1..][i] == segs[i + 1];
          Failure(rest.error)
        else
          assert forall i :: 1 <= i < |segs| ==> segs[i] == segs[1..][i - 1];
          Success([d] + rest.value)
  }

  /** The dimensions spelled by a name `<id>@<d1>_<d2>_..._<dn>`: the name must
      split on '@' into exactly two parts, and every '_'-separated segment of the
      second part must parse as an `i32`. Signs are not checked: zero and
      negative dimensions are accepted. */
  function DimFromName(name: string): (r: Result<seq<i32>, Fault>)
    ensures |SplitOn(name, '@')| != 2 ==> r == Failure(NameNotTwoParts(|SplitOn(name, '@')|))
    ensures r.Success? <==>
      Occurrences(name, '@') == 1 &&
      forall seg :: seg in SplitOn(SplitOn(name, '@')[1], '_') ==> ParseI32(seg).Some?
    ensures r.Success? ==>
      var segs := SplitOn(SplitOn(name, '@')[1], '_');
      |r.value| == |segs| >= 1 && forall i :: 0 <= i < |segs| ==> ParseI32(segs[i]) == Some(r.value[i])
  {
    var parts := SplitOn(name, '@');
    if |parts| != 2 then Failure(NameNotTwoParts(|parts|))
    else ParseDims(SplitOn(parts[1], '_'))
  }

  /** The decimal numerals of the dimensions, one per dimension. */
  function Numerals(dims: seq<i32>): (shown: seq<string>)
    ensures |shown| == |dims|
    ensures forall i :: 0 <= i < |dims| ==> ParseI32(shown[i]) == Some(dims[i])
    ensures forall p :: p in shown ==> '_' !in p && '@' !in p
  {
    var shown := seq(|dims|, i requires 0 <= i < |dims| => ShowI32(dims[i]));
    forall i | 0 <= i < |dims|
      ensures ParseI32(shown[i]) == Some(dims[i])
    {
      ParseOfShow(dims[i]);
    }
    shown
  }

  /** The decimal spelling of a list of dimensions, '_' between neighbours. */
  function RenderDims(dims: seq<i32>): string
    requires |dims| >= 1
  {
    Join(Numerals(dims), '_')
  }

  /** A rendered name splits on '@' into the id and the rendering, and the
      rendering splits on '_' into the numerals. */
  lemma SplitRendered(id: string, dims: seq<i32>)
    requires '@' !in id
    requires |dims| >= 1
    ensures SplitOn(id + "@" + RenderDims(dims), '@') == [id, RenderDims(dims)]
    ensures SplitOn(RenderDims(dims), '_') == Numerals(dims)
  {
    var shown := Numerals(dims);
    var rendered := Join(shown, '_');
    JoinAvoids(shown, '_', '@');
    SplitWithoutSeparator(rendered, '@');
    SplitAfterPiece(id, rendered, '@');
    assert id + "@" + rendered == id + ['@'] + rendered;
    SplitOfJoin(shown, '_');
  }

  /** A name written as `<id>@<d1>_..._<dn>` gives back exactly `d1, ..., dn`:
      the number of dimensions is n and their order is kept. */
  lemma DimFromNameOfRendered(id: string, dims: seq<i32>)
    requires '@' !in id
    requires |dims| >= 1
    ensures DimFromName(id + "@" + RenderDims(dims)) == Success(dims)
  {
    SplitRendered(id, dims);
    var r := DimFromName(id + "@" + RenderDims(dims));
    assert r.Success?;
    assert r.value == dims;
  }

  /** A name ending in '@' has an empty dimension segment and is rejected. */
  lemma TrailingAtRejected()
    ensures DimFromName("x@") == Failure(BadDimension(""))
  {
    SplitAfterPiece("x", "", '@');
    assert "x" + ['@'] + "" == "x@";
  }

  /** Two adjacent '_' leave an empty dimension segment, which is rejected. */
  lemma EmptySegmentRejected()
    ensures DimFromName("a@3__4") == Failure(BadDimension(""))
  {
    SplitWithoutSeparator("3__4", '@');
    SplitAfterPiece("a", "3__4", '@');
    assert "a" + ['@'] + "3__4" == "a@3__4";
    SplitWithoutSeparator("4", '_');
    SplitAfterPiece("", "4", '_');
    assert "" + ['_'] + "4" == "_4";
    SplitAfterPiece("3", "_4", '_');
    assert "3" + ['_'] + "_4" == "3__4";
    assert SplitOn("3__4", '_') == ["3", "", "4"];
    assert ParseI32("3") == Some(3 as i32) by {
      assert DigitsValue("3") == DigitsValue("") * 10 + DigitValue('3');
    }
    assert ParseI32("") == None;
    assert ["3", "", "4"][1..] == ["", "4"];
    assert ParseDims(["", "4"]) == Failure(BadDimension(""));
    assert ParseDims(["3", "", "4"]) == Failure(BadDimension(""));
  }

  /** Dimensions are not checked for sign: zero and negative ones parse. */
  lemma NonPositiveDimsAccepted()
    ensures DimFromName("w@0_-3") == Success([0 as i32, -3 as i32])
  {
    var dims := [0 as i32, -3 as i32];
    DimFromNameOfRendered("w", dims);
    assert ShowI32(0) == "0";
    assert ShowNat(3) == "3";
    assert ShowI32(-3) == "-3";
    var shown := Numerals(dims);
    assert shown == ["0", "-3"];
    assert Join(shown, '_') == "0" + ['_'] + Join(["-3"], '_');
    assert RenderDims(dims) == "0_-3";
    assert "w" + "@" + "0_-3" == "w@0_-3";
  }

  // ----- the weight's value buffer -----

  /** The product of the dimensions, as `dims.iter().product()` computes it
      (without its 32-bit overflow). */
  function Product(dims: seq<i32>): (p: int)
    ensures p == 0 <==> exists k :: 0 <= k < |dims| && dims[k] == 0
    decreases |dims|
  {
    if dims == [] then 1 else dims[0] as int * Product(dims[1..])
  }

  /** How many random values the weight buffer receives: `(0..product)` is empty
      when the product is not positive. */
  function BufferLength(dims: seq<i32>): (n: nat)
    ensures n > 0 <==> Product(dims) > 0
    ensures n > 0 ==> n == Product(dims)
  {
    if Product(dims) > 0 then Product(dims) else 0
  }

  /** With positive dimensions the buffer holds one value per tensor entry. */
  lemma {:induction false} BufferOfPositiveDims(dims: seq<i32>)
    requires forall i :: 0 <= i < |dims| ==> dims[i] > 0
    ensures BufferLength(dims) == Product(dims) > 0
    decreases |dims|
  {
    if dims != [] {
      BufferOfPositiveDims(dims[1..]);
    }
  }

  // ----- mode decoding -----

  /** `try_into::<PaddingMode>().unwrap()` on a scalar. */
  function Padding(conv: Conversions, code: i32): (r: Result<PaddingMode, Fault>)
    ensures r.Success? <==> conv.padding(code).Some?
    ensures r.Failure? ==> r.error == BadPadding(code)
    ensures Sound(conv) && r.Success? ==> r.value.code == code as int
    ensures Sound(conv) && (code == PSAME || code == PVALID) ==> r.Success?
  {
    match conv.padding(code)
    case Some(mode) => Success(mode)
    case None => Failure(BadPadding(code))
  }

  /** `try_into::<ActiMode>().unwrap()` on a scalar. */
  function Activation(conv: Conversions, code: i32): (r: Result<ActiMode, Fault>)
    ensures r.Success? <==> conv.activation(code).Some?
    ensures r.Failure? ==> r.error == BadActivation(code)
    ensures Sound(conv) && r.Success? ==> r.value.code == code as int
    ensures Sound(conv) && ACTNONE <= code <= ACTTANH ==> r.Success?
  {
    match conv.activation(code)
    case Some(mode) => Success(mode)
    case None => Failure(BadActivation(code))
  }

  /** `ndim.try_into().unwrap()`: the rank handed to the backend is an `i32`. */
  function Rank(n: nat): (r: Result<i32, Fault>)
    ensures r.Success? <==> n < 0x8000_0000
    ensures r.Success? ==> r.value as int == n
    ensures r.Failure? ==> r.error == RankTooLarge(n)
  {
    if n < 0x8000_0000 then Success(n as i32) else Failure(RankTooLarge(n))
  }

  // ----- operand tag assertions -----

  /** The records of the node's operand e-classes, in operand order: what the
      analysis reads through `egraph[id].data`. */
  function Operands(store: Store, node: Mdl): (args: seq<ValTnsr>)
    requires ChildrenIn(store, node)
    ensures |args| == |Children(node)|
    ensures forall i :: 0 <= i < |args| ==> args[i] == store[Children(node)[i]]
  {
    seq(|Children(node)|, i requires 0 <= i < |Children(node)| => store[Children(node)[i]])
  }

  /** Two stores that agree on a node's operands give it the same operand records. */
  lemma OperandsFrame(s1: Store, s2: Store, node: Mdl)
    requires ChildrenIn(s1, node) && ChildrenIn(s2, node)
    requires forall c :: c in Children(node) ==> s1[c] == s2[c]
    ensures Operands(s1, node) == Operands(s2, node)
  {
    var a1, a2 := Operands(s1, node), Operands(s2, node);
    forall i | 0 <= i < |a1|
      ensures a1[i] == a2[i]
    {
      assert Children(node)[i] in Children(node);
    }
  }

  predicate Passes(args: seq<ValTnsr>, c: Check)
    requires c.position < |args|
  {
    args[c.position].dtype == c.kind
  }

  /** Runs the assertions in order and reports the first that fails. */
  function FirstMismatch(args: seq<ValTnsr>, cs: seq<Check>): (r: Option<Fault>)
    requires forall c :: c in cs ==> c.position < |args|
    ensures r.None? <==> forall i :: 0 <= i < |cs| ==> Passes(args, cs[i])
    ensures r.Some? ==> exists i :: (0 <= i < |cs| && !Passes(args, cs[i]) &&
      r.value == KindMismatch(cs[i].position, cs[i].kind) &&
      forall j :: 0 <= j < i ==> Passes(args, cs[j]))
    decreases |cs|
  {
    if cs == [] then None
    else if !Passes(args, cs[0]) then Some(KindMismatch(cs[0].position, cs[0].kind))
    else
      var r := FirstMismatch(args, cs[1..]);
      assert forall i :: 1 <= i < |cs| ==> cs[i] == cs[1..][i - 1];
      if r.Some? then
        var i :| 0 <= i < |cs[1..]| && !Passes(args, cs[1..][i]) &&
          r.value == KindMismatch(cs[1..][i].position, cs[1..][i].kind) &&
          forall j :: 0 <= j < i ==> Passes(args, cs[1..][j]);
        assert forall j :: 0 <= j < i + 1 ==> Passes(args, cs[j]);
        r
      else r
  }

  /** Every operand holds the tag its position demands. */
  predicate KindsOk(node: Mdl, args: seq<ValTnsr>)
    requires |args| == |Children(node)|
  {
    ChecksCoverOperands(node);
    forall i :: 0 <= i < |Checks(node)| ==> Passes(args, Checks(node)[i])
  }

  // ----- make -----

  /** What `make` does for a node once its checks have passed: return a record
      directly, or call the backend with a request. */
  datatype Step = Direct(data: ValTnsr) | Call(req: Request)

  /** The tag of the record a step yields: a split call yields the two outputs
      as a tuple, every other backend call one tensor. */
  function StepKind(step: Step): DataKind {
    match step
    case Direct(d) => d.dtype
    case Call(req) => if req.SplitReq? then TnsrTuple else Tnsr
  }

  /** Scalar for literals, Name for symbols, a tensor pair for a split, a tensor otherwise. */
  function ProducedKind(node: Mdl): DataKind {
    if node.Num? then Scalar
    else if node.Var? then Name
    else if node.Split? then TnsrTuple
    else Tnsr
  }

  /** The decisions of `make` for `node` whose operands hold `args`, with no
      backend call made: first the operand tag assertions, in order, then the
      node's own translation. */
  function Translate(conv: Conversions, node: Mdl, args: seq<ValTnsr>): (r: Result<Step, Fault>)
    requires |args| == |Children(node)|
    // every operand tag is asserted before anything else happens
    ensures r.Success? ==> KindsOk(node, args)
    ensures r.Failure? && r.error.KindMismatch? <==> !KindsOk(node, args)
    ensures KindsOk(node, args) ==> r == TranslateChecked(conv, node, args)
  {
    ChecksCoverOperands(node);
    var mismatch := FirstMismatch(args, Checks(node));
    if mismatch.Some? then Failure(mismatch.value) else TranslateChecked(conv, node, args)
  }

  /** The translation of a node whose operand tags have been checked. */
  function TranslateChecked(conv: Conversions, node: Mdl, args: seq<ValTnsr>): (r: Result<Step, Fault>)
    requires |args| == |Children(node)|
    ensures r.Failure? ==> !r.error.KindMismatch? && !r.error.SplitRejected?
  {
    match node
    case Matmul(_, _, _) =>
      var mode :- Activation(conv, args[0].val);
      Success(Call(MatmulReq(args[1].meta, args[2].meta, mode)))
    case Conv2d(_, _, _, _, _, _) =>
      var padding :- Padding(conv, args[2].val);
      var mode :- Activation(conv, args[3].val);
      Success(Call(Conv2dReq(args[4].meta, args[5].meta, args[0].val, args[1].val, padding, mode)))
    case Ewadd(_, _) => Success(Call(ElementReq(OpEwAdd, args[0].meta, args[1].meta)))
    case Ewmul(_, _) => Success(Call(ElementReq(OpEwMul, args[0].meta, args[1].meta)))
    case Relu(_) => Success(Call(ReluReq(args[0].meta, true)))
    case Tanh(_) => Success(Call(TanhReq(args[0].meta, true)))
    case Sigmoid(_) => Success(Call(SigmoidReq(args[0].meta, true)))
    case Input(_) =>
      var dims :- DimFromName(args[0].name);
      var ndim :- Rank(|dims|);
      Success(Call(NewInputReq(ndim, dims)))
    case Weight(_) =>
      var dims :- DimFromName(args[0].name);
      var entries := BufferLength(dims);
      var ndim :- Rank(|dims|);
      Success(Call(NewWeightReq(ndim, dims, entries)))
    case Concat(_, _, _, _) => Success(Call(ConcatReq(args[0].val, 2, [args[2].meta, args[3].meta])))
    case Merge(_, _) => Success(Call(MergeGconvReq(args[0].meta, args[1].val)))
    case Poolmax(_, _, _, _, _, _, _) =>
      var padding :- Padding(conv, args[5].val);
      var mode :- Activation(conv, args[6].val);
      Success(Call(Pool2dMaxReq(args[0].meta, args[1].val, args[2].val, args[3].val, args[4].val, padding, mode)))
    case Split(_, _) => Success(Call(SplitReq(args[1].meta, args[0].val, 2)))
    case Split0(_) => Success(Direct(TensorRecord(args[0].meta)))
    case Split1(_) => Success(Direct(TensorRecord(args[0].meta2)))
    case Enlarge(_, _) => Success(Call(EnlargeReq(args[0].meta, args[1].meta)))
    case Num(n) => Success(Direct(ScalarRecord(n)))
    case Var(s) => Success(Direct(NameRecord(s)))
    case _ => Failure(Unimplemented)
  }

  // ----- what each node kind does -----

  /** The tag of the record `make` builds is fixed by the node kind: only a
      split yields a tensor pair. Literals, symbols and projections make no
      backend call, and exactly the kinds without a translation abort as
      unimplemented. */
  lemma TranslateKind(conv: Conversions, node: Mdl, args: seq<ValTnsr>)
    requires |args| == |Children(node)|
    ensures var r := Translate(conv, node, args);
      && (r == Failure(Unimplemented) <==> Unhandled(node))
      && (r.Success? ==> StepKind(r.value) == ProducedKind(node))
      && (r.Success? ==> (r.value.Direct? <==> node.Num? || node.Var? || node.Split0? || node.Split1?))
  {
    ChecksCoverOperands(node);
  }

  /** A literal gives a Scalar record carrying the literal, with no backend call. */
  lemma NumTranslation(conv: Conversions, n: i32)
    ensures var r := Translate(conv, Num(n), []);
      r.Success? && r.value.Direct? && r.value.data.dtype == Scalar && r.value.data.val == n &&
      WellFormed(r.value.data)
  {
  }

  /** A symbol gives a Name record carrying the symbol verbatim, whatever its
      form: names are only parsed by the nodes that consume them. */
  lemma VarTranslation(conv: Conversions, s: string)
    ensures var r := Translate(conv, Var(s), []);
      r.Success? && r.value.Direct? && r.value.data.dtype == Name && r.value.data.name == s &&
      WellFormed(r.value.data)
  {
  }

  /** The projections of a split need a tensor pair, and copy out its first or
      second handle as a tensor, with no backend call. */
  lemma ProjectionTranslation(conv: Conversions, node: Mdl, args: seq<ValTnsr>)
    requires (node.Split0? || node.Split1?) && |args| == 1
    ensures var r := Translate(conv, node, args);
      && (r.Success? <==> args[0].dtype == TnsrTuple)
      && (r.Failure? ==> r.error == KindMismatch(0, TnsrTuple))
      && (r.Success? ==> r.value == Direct(TensorRecord(if node.Split0? then args[0].meta else args[0].meta2)))
  {
  }

  /** A split needs a scalar axis and a tensor, and asks the backend for two
      parts of that tensor along the axis. */
  lemma SplitTranslation(conv: Conversions, node: Mdl, args: seq<ValTnsr>)
    requires node.Split? && |args| == 2
    ensures var r := Translate(conv, node, args);
      && (r.Success? <==> args[0].dtype == Scalar && args[1].dtype == Tnsr)
      && (args[0].dtype != Scalar ==> r == Failure(KindMismatch(0, Scalar)))
      && (r.Success? ==> r.value == Call(SplitReq(args[1].meta, args[0].val, 2)))
  {
    var cs := Checks(node);
    assert KindsOk(node, args) <==> Passes(args, cs[0]) && Passes(args, cs[1]);
  }

  /** A symbol without '@' makes a Name record of its own, but an input over it
      aborts: names are parsed only when an input or a weight consumes them. */
  lemma PlainNameRejectedByInput(conv: Conversions, s: string, name: Id)
    requires '@' !in s
    ensures Translate(conv, Var(s), []).Success?
    ensures Translate(conv, Input(name), [NameRecord(s)]) == Failure(NameNotTwoParts(1))
  {
    SplitWithoutSeparator(s, '@');
    assert DimFromName(s) == Failure(NameNotTwoParts(1));
    InputTranslation(conv, Input(name), [NameRecord(s)]);
  }

  /** An input needs a Name whose dimensions parse; the backend receives the
      rank and the dimensions in order. */
  lemma InputTranslation(conv: Conversions, node: Mdl, args: seq<ValTnsr>)
    requires node.Input? && |args| == 1
    ensures var r := Translate(conv, node, args);
      && (args[0].dtype != Name ==> r == Failure(KindMismatch(0, Name)))
      && (args[0].dtype == Name && DimFromName(args[0].name).Failure? ==> r == Failure(DimFromName(args[0].name).error))
      && (args[0].dtype == Name && DimFromName(args[0].name).Success? &&
          |DimFromName(args[0].name).value| >= 0x8000_0000 ==>
            r == Failure(RankTooLarge(|DimFromName(args[0].name).value|)))
      && (r.Success? <==> args[0].dtype == Name && DimFromName(args[0].name).Success? &&
                          |DimFromName(args[0].name).value| < 0x8000_0000)
      && (r.Success? ==>
            var dims := DimFromName(args[0].name).value;
            r.value == Call(NewInputReq(|dims| as i32, dims)))
  {
  }

  /** A weight is an input that also hands over a value buffer with one entry
      per element of the tensor (none when the product of the dimensions is not
      positive). */
  lemma WeightTranslation(conv: Conversions, node: Mdl, args: seq<ValTnsr>)
    requires node.Weight? && |args| == 1
    ensures var r := Translate(conv, node, args);
      && (args[0].dtype != Name ==> r == Failure(KindMismatch(0, Name)))
      && (args[0].dtype == Name && DimFromName(args[0].name).Failure? ==> r == Failure(DimFromName(args[0].name).error))
      && (args[0].dtype == Name && DimFromName(args[0].name).Success? &&
          |DimFromName(args[0].name).value| >= 0x8000_0000 ==>
            r == Failure(RankTooLarge(|DimFromName(args[0].name).value|)))
      && (r.Success? <==> args[0].dtype == Name && DimFromName(args[0].name).Success? &&
                          |DimFromName(args[0].name).value| < 0x8000_0000)
      && (r.Success? ==>
            var dims := DimFromName(args[0].name).value;
            r.value == Call(NewWeightReq(|dims| as i32, dims, BufferLength(dims))))
  {
  }

  /** Matmul needs a scalar activation and two tensors, checked in that order,
      and the activation must be one of the four modes. */
  lemma MatmulTranslation(conv: Conversions, node: Mdl, args: seq<ValTnsr>)
    requires node.Matmul? && |args| == 3
    ensures var r := Translate(conv, node, args);
      && (args[0].dtype != Scalar ==> r == Failure(KindMismatch(0, Scalar)))
      && (args[0].dtype == Scalar && args[1].dtype != Tnsr ==> r == Failure(KindMismatch(1, Tnsr)))
      && (r.Success? <==> args[0].dtype == Scalar && args[1].dtype == Tnsr && args[2].dtype == Tnsr &&
                          Activation(conv, args[0].val).Success?)
      && (r.Success? ==> r.value == Call(MatmulReq(args[1].meta, args[2].meta, Activation(conv, args[0].val).value)))
  {
    var cs := Checks(node);
    assert cs[1..] == [Check(1, Tnsr), Check(2, Tnsr)];
    assert KindsOk(node, args) <==> Passes(args, cs[0]) && Passes(args, cs[1]) && Passes(args, cs[2]);
    if args[0].dtype == Scalar && args[1].dtype != Tnsr {
      assert FirstMismatch(args, cs[1..]) == Some(KindMismatch(1, Tnsr));
    }
  }

  /** Conv2d needs four scalars (strides, padding, activation) and then two
      tensors (input, weight); padding and activation must decode. */
  lemma Conv2dTranslation(conv: Conversions, node: Mdl, args: seq<ValTnsr>)
    requires node.Conv2d? && |args| == 6
    ensures var r := Translate(conv, node, args);
      && (args[0].dtype != Scalar ==> r == Failure(KindMismatch(0, Scalar)))
      && (r.Success? <==>
            (forall i :: 0 <= i < 4 ==> args[i].dtype == Scalar) && args[4].dtype == Tnsr && args[5].dtype == Tnsr &&
            Padding(conv, args[2].val).Success? && Activation(conv, args[3].val).Success?)
      && (r.Success? ==>
            r.value == Call(Conv2dReq(args[4].meta, args[5].meta, args[0].val, args[1].val,
                                      Padding(conv, args[2].val).value, Activation(conv, args[3].val).value)))
  {
    var cs := Checks(node);
    assert KindsOk(node, args) <==>
      Passes(args, cs[0]) && Passes(args, cs[1]) && Passes(args, cs[2]) && Passes(args, cs[3]) &&
      Passes(args, cs[4]) && Passes(args, cs[5]);
    assert (forall i :: 0 <= i < 4 ==> args[i].dtype == Scalar) <==>
      args[0].dtype == Scalar && args[1].dtype == Scalar && args[2].dtype == Scalar && args[3].dtype == Scalar;
  }

  /** Max pooling checks its six scalars before its input tensor, so a
      non-scalar kernel height is reported even when the input is no tensor. */
  lemma PoolmaxTranslation(conv: Conversions, node: Mdl, args: seq<ValTnsr>)
    requires node.Poolmax? && |args| == 7
    ensures var r := Translate(conv, node, args);
      && (args[1].dtype != Scalar ==> r == Failure(KindMismatch(1, Scalar)))
      && ((forall i :: 1 <= i < 7 ==> args[i].dtype == Scalar) && args[0].dtype != Tnsr ==>
            r == Failure(KindMismatch(0, Tnsr)))
      && (r.Success? <==>
            (forall i :: 1 <= i < 7 ==> args[i].dtype == Scalar) && args[0].dtype == Tnsr &&
            Padding(conv, args[5].val).Success? && Activation(conv, args[6].val).Success?)
      && (r.Success? ==>
            r.value == Call(Pool2dMaxReq(args[0].meta, args[1].val, args[2].val, args[3].val, args[4].val,
                                         Padding(conv, args[5].val).value, Activation(conv, args[6].val).value)))
  {
    var cs := Checks(node);
    var scalars := forall i :: 1 <= i < 7 ==> args[i].dtype == Scalar;
    assert scalars <==>
      args[1].dtype == Scalar && args[2].dtype == Scalar && args[3].dtype == Scalar &&
      args[4].dtype == Scalar && args[5].dtype == Scalar && args[6].dtype == Scalar;
    assert scalars <==>
      Passes(args, cs[0]) && Passes(args, cs[1]) && Passes(args, cs[2]) &&
      Passes(args, cs[3]) && Passes(args, cs[4]) && Passes(args, cs[5]);
    assert KindsOk(node, args) <==> scalars && Passes(args, cs[6]);
  }

  /** Concat needs two scalars (axis, rank) and two tensors; the rank is
      checked but plays no part: the backend is told to join exactly two tensors. */
  lemma ConcatTranslation(conv: Conversions, node: Mdl, args: seq<ValTnsr>)
    requires node.Concat? && |args| == 4
    ensures var r := Translate(conv, node, args);
      && (r.Success? <==> args[0].dtype == Scalar && args[1].dtype == Scalar && args[2].dtype == Tnsr &&
                          args[3].dtype == Tnsr)
      && (r.Success? ==> r.value == Call(ConcatReq(args[0].val, 2, [args[2].meta, args[3].meta])))
      && forall v: i32 :: Translate(conv, node, args[1 := args[1].(val := v)]) == r
  {
    forall v: i32
      ensures Translate(conv, node, args[1 := args[1].(val := v)]) == Translate(conv, node, args)
    {
      var args' := args[1 := args[1].(val := v)];
      assert forall i :: 0 <= i < 4 ==> args'[i].dtype == args[i].dtype;
    }
  }

  /** Merge checks its count before its weight tensor. */
  lemma MergeTranslation(conv: Conversions, node: Mdl, args: seq<ValTnsr>)
    requires node.Merge? && |args| == 2
    ensures var r := Translate(conv, node, args);
      && (args[1].dtype != Scalar ==> r == Failure(KindMismatch(1, Scalar)))
      && (args[1].dtype == Scalar && args[0].dtype != Tnsr ==> r == Failure(KindMismatch(0, Tnsr)))
      && (r.Success? <==> args[1].dtype == Scalar && args[0].dtype == Tnsr)
      && (r.Success? ==> r.value == Call(MergeGconvReq(args[0].meta, args[1].val)))
  {
    var cs := Checks(node);
    assert KindsOk(node, args) <==> Passes(args, cs[0]) && Passes(args, cs[1]);
  }

  /** The element-wise ops and enlarge need two tensors; the activations need
      one and are applied in place. */
  lemma TensorOpTranslation(conv: Conversions, node: Mdl, args: seq<ValTnsr>)
    requires node.Ewadd? || node.Ewmul? || node.Enlarge? || node.Relu? || node.Tanh? || node.Sigmoid?
    requires |args| == |Children(node)|
    ensures var r := Translate(conv, node, args);
      && (r.Success? <==> forall i :: 0 <= i < |args| ==> args[i].dtype == Tnsr)
      && (r.Success? ==> r.value == Call(
            match node
            case Ewadd(_, _) => ElementReq(OpEwAdd, args[0].meta, args[1].meta)
            case Ewmul(_, _) => ElementReq(OpEwMul, args[0].meta, args[1].meta)
            case Enlarge(_, _) => EnlargeReq(args[0].meta, args[1].meta)
            case Relu(_) => ReluReq(args[0].meta, true)
            case Tanh(_) => TanhReq(args[0].meta, true)
            case Sigmoid(_) => SigmoidReq(args[0].meta, true)))
  {
    var cs := Checks(node);
    assert forall i :: 0 <= i < |cs| ==> cs[i] == Check(i, Tnsr);
  }

  /** Records made directly from well-formed operands are well-formed. */
  lemma DirectKeepsWellFormed(conv: Conversions, node: Mdl, args: seq<ValTnsr>)
    requires |args| == |Children(node)|
    requires forall i :: 0 <= i < |args| ==> WellFormed(args[i])
    ensures var r := Translate(conv, node, args);
      r.Success? && r.value.Direct? ==> WellFormed(r.value.data)
  {
    if node.Split0? || node.Split1? {
      ProjectionTranslation(conv, node, args);
    }
  }

  /** The split dereferences its input handle to find the op that produced it. */
  predicate SplitInputLive(node: Mdl, args: seq<ValTnsr>)
    requires |args| == |Children(node)|
  {
    node.Split? && args[1].dtype == Tnsr ==> args[1].meta.Ptr?
  }

  class TensorAnalysis {
    /** The TASO graph the analysis owns for the whole optimization run. */
    const graph: Graph
    /** How the bindings convert scalars to padding and activation modes. */
    const conv: Conversions

    constructor (graph: Graph, conv: Conversions)
      ensures this.graph == graph && this.conv == conv
    {
      this.graph := graph;
      this.conv := conv;
    }

    /** `make`: the record of the e-class a new node creates. A failed check
        leaves the graph as it was; a backend call appends its op to the log and
        wraps the fresh handle it returns. */
    method Make(store: Store, node: Mdl) returns (r: Result<ValTnsr, Fault>)
      requires graph.Valid()
      requires ChildrenIn(store, node)
      requires SplitInputLive(node, Operands(store, node))
      modifies graph
      ensures graph.Valid()
      ensures var plan := Translate(conv, node, Operands(store, node));
        plan.Failure? ==> r == Failure(plan.error) && unchanged(graph)
      ensures var plan := Translate(conv, node, Operands(store, node));
        plan.Success? && plan.value.Direct? ==> r == Success(plan.value.data) && unchanged(graph)
      ensures var plan := Translate(conv, node, Operands(store, node));
        plan.Success? && plan.value.Call? && !plan.value.req.SplitReq? ==>
          r == Success(TensorRecord(Output(old(graph.next), 0))) &&
          graph.log == old(graph.log) + [Created(old(graph.next), plan.value.req)] &&
          graph.next == old(graph.next) + 1
      ensures var plan := Translate(conv, node, Operands(store, node));
        plan.Success? && plan.value.Call? && plan.value.req.SplitReq? ==>
          var req, k := plan.value.req, old(graph.next);
          req.input.Ptr? &&
          if graph.splitAccepts(req.input, req.axis, 2) then
            r == Success(TupleRecord(Output(k, 0), Output(k, 1))) &&
            graph.log == old(graph.log) + [Created(k, req), Edge(req.input.op, k, req.input.idx, 0)] &&
            graph.next == k + 1
          else
            r == Failure(SplitRejected) && unchanged(graph)
      ensures r.Success? ==> r.value.dtype == ProducedKind(node)
      ensures r.Success? && ChildrenWellFormed(store, node) ==> WellFormed(r.value)
    {
      var args := Operands(store, node);
      if ChildrenWellFormed(store, node) {
        DirectKeepsWellFormed(conv, node, args);
      }
      TranslateKind(conv, node, args);
      var step :- Translate(conv, node, args);
      match step {
        case Direct(d) =>
          r := Success(d);
        case Call(req) =>
          if req.SplitReq? {
            SplitTranslation(conv, node, args);
            assert req == SplitReq(args[1].meta, args[0].val, 2);
            var op := graph.GetOrCreateSplit1(req.input, req.axis, req.n);
            if op.InvalidOp? {
              return Failure(SplitRejected);
            }
            graph.AddEdge(req.input.op, op.id, req.input.idx, 0);
            r := Success(TupleRecord(Output(op.id, 0), Output(op.id, 1)));
          } else {
            var h := graph.Create(req);
            r := Success(TensorRecord(h));
          }
      }
    }
  }

  // ----- merge -----

  /** What `merge` reports: whether the kept record changed, and the kept record. */
  datatype MergeResult = MergeResult(changed: bool, kept: ValTnsr)

  /** `merge`: the records of two equivalent e-classes are interchangeable, so
      the record already in place is kept and no change is reported. */
  function MergeRecords(to: ValTnsr, from: ValTnsr): (r: MergeResult)
    ensures !r.changed && r.kept == to
  {
    MergeResult(false, to)
  }

  /** `merge` as the e-graph applies it: e-class `id` absorbs the record
      `from` of an e-class merged into it. The store is left exactly as it was. */
  function MergeInto(store: Store, id: Id, from: ValTnsr): (merged: Store)
    requires id in store
    ensures merged == store
  {
    store[id := MergeRecords(store[id], from).kept]
  }

  /** After a merge every node's operands hold the records they held before,
      so `make` would decide exactly as it did: the records `make` installed
      are never revised by merging. */
  lemma MergePreservesTranslation(conv: Conversions, store: Store, id: Id, from: ValTnsr, node: Mdl)
    requires id in store && ChildrenIn(store, node)
    ensures ChildrenIn(MergeInto(store, id, from), node)
    ensures Operands(MergeInto(store, id, from), node) == Operands(store, node)
    ensures Translate(conv, node, Operands(MergeInto(store, id, from), node)) == Translate(conv, node, Operands(store, node))
  {
    OperandsFrame(MergeInto(store, id, from), store, node);
  }
}
