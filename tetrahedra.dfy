/**
 * Node indices, face keys and the parts of a tetrahedron that the face-adjacency
 * builder relies on.  Node and element indices (`N3Index`, `T4Index`) are naturals.
 */
module Tetrahedra {
  import opened Wrappers

  /** The canonical key of a triangular face: its three node indices. */
  datatype Face = Face(smaller: nat, medium: nat, larger: nat) {
    predicate Sorted() {
      smaller <= medium <= larger
    }

    predicate Has(x: nat) {
      x == smaller || x == medium || x == larger
    }
  }

  /** The six orderings of three node indices. */
  function Permutations(p1: nat, p2: nat, p3: nat): set<Face> {
    {Face(p1, p2, p3), Face(p1, p3, p2), Face(p2, p1, p3),
     Face(p2, p3, p1), Face(p3, p1, p2), Face(p3, p2, p1)}
  }

  /** `sort_3`: the three indices in ascending order. */
  function Sort3(p1: nat, p2: nat, p3: nat): (f: Face)
    ensures f.Sorted()
  {
    if p1 <= p2 then
      if p2 <= p3 then Face(p1, p2, p3)
      else if p1 <= p3 then Face(p1, p3, p2)
      else Face(p3, p1, p2)
    else
      if p1 <= p3 then Face(p2, p1, p3)
      else if p2 <= p3 then Face(p2, p3, p1)
      else Face(p3, p2, p1)
  }

  /** `sort_3` returns an ordering of its arguments. */
  lemma {:induction false} Sort3Permutes(p1: nat, p2: nat, p3: nat)
    ensures Sort3(p1, p2, p3) in Permutations(p1, p2, p3)
  {
  }

  /** The face key does not depend on the order in which the three nodes are given. */
  lemma {:induction false} Sort3Canonical(p1: nat, p2: nat, p3: nat, q1: nat, q2: nat, q3: nat)
    requires Face(q1, q2, q3) in Permutations(p1, p2, p3)
    ensures Sort3(p1, p2, p3) == Sort3(q1, q2, q3)
  {
    Sort3Permutes(p1, p2, p3);
    Sort3Permutes(q1, q2, q3);
  }

  /** The key of a face holds exactly the three given nodes. */
  lemma {:induction false} Sort3Has(p1: nat, p2: nat, p3: nat, x: nat)
    ensures Sort3(p1, p2, p3).Has(x) <==> x == p1 || x == p2 || x == p3
  {
  }

  type NodeQuad = s: seq<nat> | |s| == 4 witness [0, 0, 0, 0]
  type SlotQuad = s: seq<Option<nat>> | |s| == 4 witness [None, None, None, None]

  /** A tetrahedron: four node indices and one neighbour slot per face. */
  datatype Tetrahedron = Tetrahedron(nodes: NodeQuad, neighbors: SlotQuad)

  /** The nodes of face `k`: every node except node `k + 3 (mod 4)`, in cyclic order. */
  function FaceTuple(nodes: NodeQuad, k: nat): (nat, nat, nat)
    requires k < 4
  {
    if k == 0 then (nodes[0], nodes[1], nodes[2])
    else if k == 1 then (nodes[1], nodes[2], nodes[3])
    else if k == 2 then (nodes[2], nodes[3], nodes[0])
    else (nodes[3], nodes[0], nodes[1])
  }

  /** `faces_as_indices_tuples`: the four faces, slot by slot. */
  function FacesAsIndicesTuples(t: Tetrahedron): (r: seq<(nat, nat, nat)>)
    ensures |r| == 4
    ensures forall k :: 0 <= k < 4 ==> r[k] == FaceTuple(t.nodes, k)
  {
    [FaceTuple(t.nodes, 0), FaceTuple(t.nodes, 1), FaceTuple(t.nodes, 2), FaceTuple(t.nodes, 3)]
  }

  /** The canonical key of face `k` of a tetrahedron with the given nodes. */
  function FaceKeyOf(nodes: NodeQuad, k: nat): (f: Face)
    requires k < 4
    ensures f.Sorted()
  {
    var (a, b, c) := FaceTuple(nodes, k);
    Sort3(a, b, c)
  }

  /** The keys of the four faces, slot by slot. */
  function FaceKeysOf(nodes: NodeQuad): (r: seq<Face>)
    ensures |r| == 4
    ensures forall k :: 0 <= k < 4 ==> r[k] == FaceKeyOf(nodes, k)
  {
    [FaceKeyOf(nodes, 0), FaceKeyOf(nodes, 1), FaceKeyOf(nodes, 2), FaceKeyOf(nodes, 3)]
  }

  /** The first slot whose face has the key `f`. */
  function SlotOf(nodes: NodeQuad, f: Face): (k: nat)
    requires f in FaceKeysOf(nodes)
    ensures k < 4 && FaceKeyOf(nodes, k) == f
    ensures forall j :: 0 <= j < k ==> FaceKeyOf(nodes, j) != f
  {
    if FaceKeyOf(nodes, 0) == f then 0
    else if FaceKeyOf(nodes, 1) == f then 1
    else if FaceKeyOf(nodes, 2) == f then 2
    else 3
  }

  function FaceKey(t: Tetrahedron, k: nat): Face
    requires k < 4
  {
    FaceKeyOf(t.nodes, k)
  }

  function FaceKeys(t: Tetrahedron): seq<Face> {
    FaceKeysOf(t.nodes)
  }

  /**
   * `get_neighbor_index`: the first slot whose face has the same node set as the
   * query; the query must be a face of the tetrahedron.
   */
  function GetNeighborIndex(t: Tetrahedron, a: nat, b: nat, c: nat): (k: nat)
    requires Sort3(a, b, c) in FaceKeys(t)
    ensures k < 4 && FaceKey(t, k) == Sort3(a, b, c)
    ensures forall j :: 0 <= j < k ==> FaceKey(t, j) != Sort3(a, b, c)
  {
    SlotOf(t.nodes, Sort3(a, b, c))
  }

  /** `set_neighbor`: slot `k` holds `v`; nodes and the other slots are unchanged. */
  function SetNeighbor(t: Tetrahedron, k: nat, v: Option<nat>): (r: Tetrahedron)
    requires k < 4
    ensures r.nodes == t.nodes
    ensures r.neighbors[k] == v
    ensures forall j :: 0 <= j < 4 && j != k ==> r.neighbors[j] == t.neighbors[j]
  {
    Tetrahedron(t.nodes, t.neighbors[k := v])
  }

  /** Every face key of a tetrahedron is sorted, so sorting it again gives it back. */
  lemma {:induction false} FaceKeysSorted(t: Tetrahedron, f: Face)
    requires f in FaceKeys(t)
    ensures f.Sorted() && Sort3(f.smaller, f.medium, f.larger) == f
  {
    var k :| 0 <= k < 4 && FaceKeys(t)[k] == f;
    assert FaceKeyOf(t.nodes, k) == f;
  }

  /** A tetrahedron whose four nodes are distinct. */
  predicate DistinctNodes(t: Tetrahedron) {
    forall i, j :: 0 <= i < j < 4 ==> t.nodes[i] != t.nodes[j]
  }

  /** With four distinct nodes every face key holds three distinct nodes, in strictly ascending order. */
  lemma {:induction false} FaceKeyStrict(t: Tetrahedron, k: nat)
    requires DistinctNodes(t)
    requires k < 4
    ensures FaceKey(t, k).smaller < FaceKey(t, k).medium < FaceKey(t, k).larger
  {
    var (a, b, c) := FaceTuple(t.nodes, k);
    assert a != b && b != c && a != c;
  }

  /** With four distinct nodes the four faces have four distinct keys. */
  lemma {:induction false} DistinctFaceKeys(t: Tetrahedron, i: nat, j: nat)
    requires DistinctNodes(t)
    requires i < j < 4
    ensures FaceKey(t, i) != FaceKey(t, j)
  {
    var (a, b, c) := FaceTuple(t.nodes, i);
    var (d, e, f) := FaceTuple(t.nodes, j);
    var x := t.nodes[(j + 3) % 4];
    Sort3Has(a, b, c, x);
    Sort3Has(d, e, f, x);
  }
}
