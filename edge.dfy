/**
 * Edge (torch/csrc/autograd/edge.h): a particular input of a node of the autograd graph, as
 * the node it points to and the number of the input.
 */
module Edges {

  /** uint32_t */
  type UInt32 = n: int | 0 <= n < 0x1_0000_0000

  /** A shared_ptr<Node>: null, or a node compared by identity. */
  datatype NodeRef = Null | Node(id: nat)

  /** `fn` is the source's `function` field, renamed because `function` is a Dafny keyword. */
  datatype Edge = Edge(fn: NodeRef, inputNr: UInt32)

  /** The default constructor: no function, input 0. */
  function DefaultEdge(): (e: Edge)
    ensures e.fn == Null && e.inputNr == 0
    ensures !IsValid(e)
  {
    Edge(Null, 0)
  }

  /** The two-argument constructor stores both fields as given. */
  function MakeEdge(fn: NodeRef, inputNr: UInt32): (e: Edge)
    ensures e.fn == fn && e.inputNr == inputNr
    ensures IsValid(e) <==> fn != Null
  {
    Edge(fn, inputNr)
  }

  /** is_valid: the edge points to a function. */
  predicate IsValid(e: Edge)
  {
    e.fn != Null
  }

  /** operator==: the same function and the same input number. */
  predicate Equal(a: Edge, b: Edge)
  {
    a.fn == b.fn && a.inputNr == b.inputNr
  }

  /** operator!= */
  predicate NotEqual(a: Edge, b: Edge)
  {
    !Equal(a, b)
  }

  /** std::hash<Edge>: get_hash of the two fields; the mixing itself is a parameter. */
  function Hash(getHash: (NodeRef, UInt32) -> nat, e: Edge): nat
  {
    getHash(e.fn, e.inputNr)
  }

  /** == compares every field, so it is an equivalence relation: it coincides with equality of edges. */
  lemma EqualIsIdentity(a: Edge, b: Edge)
    ensures Equal(a, b) <==> a == b
    ensures NotEqual(a, b) <==> a != b
  {
  }

  /** Equal edges hash equally, whatever the mixing function. */
  lemma EqualEdgesHashEqually(getHash: (NodeRef, UInt32) -> nat, a: Edge, b: Edge)
    requires Equal(a, b)
    ensures Hash(getHash, a) == Hash(getHash, b)
  {
  }
}
