/**
The node tree handed to the FBX 7.4 binary writer: named nodes, each with a
sequence of typed attributes and a sequence of child nodes. The byte-level
framing is the writer's business and is not modelled.
*/
module FbxTree {

  const I32_MIN: int := -0x8000_0000
  const I32_MAX: int := 0x7fff_ffff
  const I64_MIN: int := -0x8000_0000_0000_0000
  const I64_MAX: int := 0x7fff_ffff_ffff_ffff

  /** One attribute, by the writer call that appends it (`append_i32`, `append_arr_f64_from_iter`, ...). */
  datatype Attr =
    | I32(i32: int)
    | I64(i64: int)
    | F64(f64: real)
    | Str(str: string)
    | F64Array(f64s: seq<real>)
    | I32Array(i32s: seq<int>)

  datatype Node = Node(name: string, attrs: seq<Attr>, children: seq<Node>)

  /** The names of a sequence of nodes, in order. */
  function Names(ns: seq<Node>): (r: seq<string>)
    ensures |r| == |ns|
    ensures forall k :: 0 <= k < |ns| ==> r[k] == ns[k].name
  {
    seq(|ns|, k requires 0 <= k < |ns| => ns[k].name)
  }

  predicate InI32(v: int) {
    I32_MIN <= v <= I32_MAX
  }

  predicate InI64(v: int) {
    I64_MIN <= v <= I64_MAX
  }

  /** The attribute's value is representable in the width the writer stores it in. */
  predicate AttrFits(a: Attr) {
    match a
    case I32(v) => InI32(v)
    case I64(v) => InI64(v)
    case I32Array(vs) => forall k :: 0 <= k < |vs| ==> InI32(vs[k])
    case _ => true
  }

  /** Every attribute in the tree rooted at `n` fits its width. */
  predicate WellTyped(n: Node)
    decreases n
  {
    && (forall k :: 0 <= k < |n.attrs| ==> AttrFits(n.attrs[k]))
    && (forall k :: 0 <= k < |n.children| ==> WellTyped(n.children[k]))
  }
}
