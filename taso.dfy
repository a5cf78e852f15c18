/** The TASO graph as the analysis sees it: an object that records each op it is
    asked to create and hands back a fresh handle to that op's output. What the
    ops compute (shapes, costs, values) is the backend's business and is not
    modelled; a call is remembered by its arguments only. */
module Taso {
  import opened Text
  import opened Lang

  /** TASO's element-wise op types. */
  datatype OpType = OpEwAdd | OpEwMul

  /** One backend call that creates an op, with the arguments the analysis passes. */
  datatype Request =
    | MatmulReq(a: Handle, b: Handle, act: ActiMode)
    | Conv2dReq(input: Handle, weight: Handle, strideH: i32, strideW: i32, pad: PaddingMode, act: ActiMode)
    | ElementReq(opType: OpType, a: Handle, b: Handle)
    | ReluReq(a: Handle, inPlace: bool)
    | TanhReq(a: Handle, inPlace: bool)
    | SigmoidReq(a: Handle, inPlace: bool)
    | NewInputReq(ndim: i32, dims: seq<i32>)
    | NewWeightReq(ndim: i32, dims: seq<i32>, entries: nat)  // entries: length of the value buffer
    | ConcatReq(axis: i32, n: nat, inputs: seq<Handle>)
    | MergeGconvReq(weight: Handle, count: i32)
    | Pool2dMaxReq(input: Handle, kernelH: i32, kernelW: i32, strideH: i32, strideW: i32,
                   pad: PaddingMode, act: ActiMode)
    | SplitReq(input: Handle, axis: i32, n: nat)
    | EnlargeReq(a: Handle, b: Handle)

  /** An entry of the graph's log: an op created for a request, or an edge
      from output `srcIdx` of op `src` to input `dstIdx` of op `dst`. */
  datatype Event =
    | Created(op: nat, req: Request)
    | Edge(src: nat, dst: nat, srcIdx: nat, dstIdx: nat)

  /** What `get_or_create_split1` returns: an op, or TASO's invalid op. */
  datatype OpRef = InvalidOp | Op(id: nat)

  /** Output `i` of a created op. */
  function Output(op: nat, i: nat): (h: Handle)
    ensures h.Ptr? && h.op == op && h.idx == i
  {
    Ptr(op, i)
  }

  class Graph {
    /** Every op created and every edge added, oldest first. */
    var log: seq<Event>
    /** The identifier the next created op receives. */
    var next: nat
    /** Whether the backend can split a tensor on an axis into a number of parts;
        when it cannot, the split returns the invalid op. */
    const splitAccepts: (Handle, i32, nat) -> bool

    /** Every op in the log was numbered before `next`, so the next op is fresh. */
    ghost predicate Valid()
      reads this
    {
      forall i :: 0 <= i < |log| && log[i].Created? ==> log[i].op < next
    }

    constructor (splitAccepts: (Handle, i32, nat) -> bool)
      ensures Valid()
      ensures log == [] && next == 0 && this.splitAccepts == splitAccepts
    {
      log := [];
      next := 0;
      this.splitAccepts := splitAccepts;
    }

    /** Any op constructor other than the split (`matmul`, `conv2d1`, `element`,
        `relu`, `new_input`, ...): it creates a fresh op and returns its output. */
    method Create(req: Request) returns (h: Handle)
      requires Valid()
      modifies this
      ensures Valid()
      ensures h == Output(old(next), 0)
      ensures forall e :: e in old(log) && e.Created? ==> e.op != old(next)
      ensures log == old(log) + [Created(old(next), req)] && next == old(next) + 1
    {
      log := log + [Created(next, req)];
      h := Output(next, 0);
      next := next + 1;
    }

    /** `get_or_create_split1`: a fresh split op with `n` outputs, or the invalid
        op (and no change) when the backend cannot split `input` on `axis`. */
    method GetOrCreateSplit1(input: Handle, axis: i32, n: nat) returns (op: OpRef)
      requires Valid()
      modifies this
      ensures Valid()
      ensures forall e :: e in old(log) && e.Created? ==> e.op != old(next)
      ensures splitAccepts(input, axis, n) ==>
        op == Op(old(next)) && log == old(log) + [Created(old(next), SplitReq(input, axis, n))] && next == old(next) + 1
      ensures !splitAccepts(input, axis, n) ==> op == InvalidOp && unchanged(this)
    {
      if splitAccepts(input, axis, n) {
        log := log + [Created(next, SplitReq(input, axis, n))];
        op := Op(next);
        next := next + 1;
      } else {
        op := InvalidOp;
      }
    }

    /** `add_edge`: records that output `srcIdx` of `src` feeds input `dstIdx` of `dst`. */
    method AddEdge(src: nat, dst: nat, srcIdx: nat, dstIdx: nat)
      requires Valid()
      modifies this
      ensures Valid()
      ensures log == old(log) + [Edge(src, dst, srcIdx, dstIdx)] && next == old(next)
    {
      log := log + [Edge(src, dst, srcIdx, dstIdx)];
    }
  }
}
